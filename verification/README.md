# Photon, modelled and proved in Dafny

Photon is a Go toolkit for services: caches and probabilistic structures, an in-memory store, background workers,
database helpers and feature flags. This project models seven places of it where correctness depends on several pieces
staying in step, and proves what they promise for all inputs, all states and all runs.

`dafny verify dfyconfig.toml` checks everything.

- **FlashDB** (`Floats`, `FlashRecord`, `FlashShard`, `FlashStore`, `FlashOps`, `FlashRecency`, `FlashFit`, `FlashDb`,
  `FlashDbStore`). A sharded map with a per-shard LRU, popularity-based admission, a byte budget and expiry. `Floats`
  is the rounding of float64 sums. `FlashShard` and `FlashStore` describe the store as a value and state the theorems;
  `FlashOps` and `FlashRecency` say what the operations do in terms of later lookups, the clock and past uses;
  `FlashDb` and `FlashDbStore` are the mutable shard and store, proved to take exactly the steps of that value. The
  central result compares every run with an ideal map that has no capacity.
- **LRU, Count-Min Sketch, TinyLFU** (`Recency`, `Lru`, `LruTraces`, `Sketch`, `CountMin`). The structures FlashDB is
  built on: stack inclusion of caches of different size, and exact bounds on a sketch that is halved periodically.
- **Worker overseer** (`RestartBudget`, `WorkerProtocol`, `Overseer`, `WorkerLife`). A protocol of atomic steps (each
  locked section, channel operation and timer event) whose runs are all interleavings; slots per worker kind are
  conserved and restarts stay within their budget. `Overseer.Workers` holds the mutable registry and histories.
- **Elasticsearch paging** (`ElasticPaging`, `ElasticSearch`). Two ways of putting a large window together from pages,
  against a server that is a fixed sequence of hits.
- **SQL parameters** (`SqlNames`, `Decimal`, `PgLexer`, `PgManual`, `PgRelex`, `PgNamedParams`, `PgPlaceholders`,
  `PgInsertText`, `MySqlParams`). The Postgres scanner against a lexer of its own, that lexer against the rules for
  string constants, identifiers and dollar quotes in sections 4.1.1, 4.1.2.1 and 4.1.2.4 of the PostgreSQL manual,
  what those rules make of the emitted text, placeholder numbering, and the MySQL rewrite by repeated replacement.
- **Bloom filter, bit set, HTML entities** (`BitSets`, `Bloom`, `HtmlEntities`). 64-bit words as sets of positions,
  filters over whole runs, and a round trip through ten replacement passes.
- **Feature variants** (`Variants`). What the validator accepts determines how the evaluator shares out the buckets.

`Collections` and `Widths` hold sequence and map facts and integer bounds the others share.

Clocks, hash functions, map iteration orders and the results of factories are parameters. Integer widths are written
out where they matter: int64 and int32 fields, uint64 byte counters and operation counters, 32-bit sketch counters,
64-bit words as bit vectors. Sums of float64 fields are rounded to the nearest float64, ties to even. Go strings are
sequences of bytes, written as characters.

## Where the code does not meet the obvious reading

The last member named in an item states the exact condition; the ones before it give inputs.

- `Set` answers true for an update that is larger than the whole shard, although nothing stays stored
  (`FlashStore.OversizedUpdateExample`, `FlashShard.SetTrueMeansStoredIff`).
- An `Append` that fails on a later field leaves the stored size stale (`FlashRecord.StaleSizeExample`,
  `FlashRecord.AppendKeepsTruthIff`).
- Decrementing by the smallest int64 does not undo incrementing by it (`FlashRecord.NotUndoneExample`,
  `FlashRecord.AddIntUndoneIff`).
- Decrementing a float64 field does not undo an increment that was rounded: 0.5 is lost to 2^60
  (`FlashRecord.FloatNotUndoneExample`, `FlashRecord.DecrementUndoesIncrementIff`).
- `GetTTL` answers 0, not missing, for a record that has ended less than a second ago by its second clock reading
  (`FlashOps.GetTTLZeroExample`, `FlashOps.GetTTLRightIff`).
- `Exists` answers true for an expired key that is deleted between its two locked sections
  (`FlashShard.VanishedExample`, `FlashShard.ExistsRightIff`).
- The backoff is not monotone when the configured minimum exceeds the maximum (`RestartBudget.ShorterWaitExample`,
  `RestartBudget.DelayMonotoneIff`).
- The search_after jump panics on a window far past the end of a non-empty index, and ties bring that end closer
  (`ElasticPaging.TiedWindowPanics`, `ElasticPaging.FoundPanicsIff`).
- Pages that split a tie of sort keys lose hits (`ElasticPaging.TieLosesHit`, `ElasticPaging.FoundIff`).
- A scroll whose first page ends before the window is never cleared (`ElasticSearch.ScrollWindow`).
- `AllSet` is never true for a size that is not a multiple of 64 (`Bloom.BitSet.AllSet`).
- A Bloom filter of size 0 forgets every key (`Bloom.EmptyFilterExample`, `Bloom.NoFalseNegativesIff`).
- A Bloom filter with more than 111 hash functions, the number of seeds, panics when it has bits
  (`Bloom.BloomFilter.Add`).
- An IN clause for a column with other than name characters does not convert, nor does one with a name character right
  behind it (`MySqlParams.QualifiedColumnExample`, `MySqlParams.InClauseIff`).
- A random roll can miss every variant of an accepted list (`Variants.RandomRollMayMiss`, `Variants.SelectsIff`).
- The Postgres scanner takes dollar tags the manual does not have, those that begin with a digit and those glued to an
  identifier, and misses those with a letter outside ASCII (`PgManual.DigitTagExample`, `PgManual.GluedTagExample`,
  `PgManual.ForeignTagExample`, `PgManual.AgreesIff`).
- A placeholder written right after an identifier or a dollar sign is not read as a parameter
  (`PgRelex.NotFreeExamples`, `PgRelex.SurvivesIff`).

## Model

| member | source | states |
|---|---|---|
| `FlashStore.RunRefines` | storage/flashdb/store.go:120-639 | over every run of operations and janitor sweeps, every stored record is the record of an ideal map that has no capacity and never forgets; every shard is in step and within its capacity, and every key sits in its hash shard |
| `FlashStore.HitsAreIdeal` | storage/flashdb/store.go:168-197 | a Get hit after any run returns exactly the value the ideal map holds, and that value has not expired |
| `FlashStore.BudgetHolds` | storage/flashdb/store.go:87-96 | after any run the byte counters of all shards add up to at most MaxStorageSize |
| `FlashStore.SweepIsInvisible` | storage/flashdb/store.go:609-639 | a janitor sweep of a shard, in any visiting order, changes no lookup of any key at that time or later |
| `FlashStore.TickIsInvisible` | storage/flashdb/store.go:609-639 | nor does a whole janitor tick over all shards |
| `FlashStore.SweepProgress` | storage/flashdb/store.go:609-639 | a sweep deletes at most its budget of records, and either uses the budget up or leaves no expired record among the keys it visited |
| `FlashStore.StepRefines` | storage/flashdb/store.go:168-604 | each single operation keeps the relation to the ideal map |
| `FlashStore.ShardStepTracks` | storage/flashdb/store.go:168-604 | each operation leaves its shard valid and holding nothing but ideal records |
| `FlashStore.ShardStepFootprint` | storage/flashdb/store.go:168-604 | an operation changes only its own key; other records stay as they are or are dropped |
| `FlashStore.SweepOnlyDropsExpired` | storage/flashdb/store.go:609-639 | a sweep removes only expired records and alters none |
| `FlashFit.FittingRunIsExact` | storage/flashdb/store.go:168-639 | when the ideal records of every shard always fit its share, nothing is ever evicted or rejected: every lookup answers exactly like the ideal map, misses included |
| `FlashFit.StoredSizesTruthful` | storage/flashdb/store.go:393-516 | in every run without a part-way failing Append, each stored size is computeSize of the key and its current value |
| `FlashShard.InsertShape` | storage/flashdb/store.go:266-294 | an accepted insert evicts exactly the shortest LRU suffix that makes room, every victim no more popular than the newcomer; a rejected insert stops at the first more popular victim, keeps a prefix of the recency order, and the branch without a victim is never taken |
| `FlashShard.AdmitShape` | storage/flashdb/store.go:273-287 | the same for the admission loop alone |
| `FlashShard.TrimShape` | storage/flashdb/store.go:253-261 | the trim loop after an update keeps the longest run of recent keys that fits |
| `FlashShard.UpdatedKeySurvivesIff` | storage/flashdb/store.go:234-264 | an updated key is still present after its own trim loop if and only if its new size fits the shard |
| `FlashShard.SetTrueMeansStoredIff` | storage/flashdb/store.go:207-295 | Set answering true means the record is stored if and only if its size fits the shard; a stored record always means true |
| `FlashStore.OversizedUpdateExample` | storage/flashdb/store.go:234-264 | with 150 bytes a shard, Set of "k" with no fields, then with one empty field, answers true twice and a lookup finds nothing |
| `FlashStore.OversizedUpdate` | storage/flashdb/store.go:234-264 | so does every update of a stored key by a record larger than its shard |
| `FlashShard.ExistsRightIff` | storage/flashdb/store.go:150-162 | the second locked section of Exists answers rightly for the shard it sees if and only if the key is still there |
| `FlashShard.VanishedExample` | storage/flashdb/store.go:150-162 | a key that expired and was deleted between the two sections is reported as existing |
| `FlashShard.ExistsIsExpire` | storage/flashdb/store.go:136-162 | whatever happens between the sections, the shard is left as by one lazy expiry at the time of the last |
| `FlashShard.AdmissionTestExactIff` | storage/flashdb/shard.go:44-47 | the unsigned test size + cost > capacity never wraps if and only if the capacity is at most 2^63 |
| `FlashShard.SetKeepsValid` | storage/flashdb/store.go:207-295 | map keys, LRU keys and byte counter stay in step through Set, and the counter ends within capacity |
| `FlashShard.AppendKeepsValid` | storage/flashdb/store.go:451-516 | the same through Append |
| `FlashShard.IncrementKeepsValid` | storage/flashdb/store.go:393-434 | the same through Increment |
| `FlashShard.SetTTLKeepsValid` | storage/flashdb/store.go:571-604 | the same through SetTTL |
| `FlashShard.GetTTLKeepsValid` | storage/flashdb/store.go:534-567 | the same through GetTTL, including its expiry at a later clock reading |
| `FlashShard.SweepKeepsValid` | storage/flashdb/store.go:609-639 | the same through a janitor sweep |
| `FlashShard.AccessKeepsValid` | storage/flashdb/store.go:130-197 | the same through Get, Exists and Delete |
| `FlashShard.TrimRestoresValid` | storage/flashdb/store.go:253-261 | the trim loop brings an over-budget shard that is in step back within capacity |
| `FlashShard.WholeWeight` | storage/flashdb/shard.go:9-20 | the byte counter is the sum of the record sizes along the LRU order |
| `FlashOps.SetSeen` | storage/flashdb/store.go:207-295 | after Set a lookup at any time t finds exactly the value set if Set answered true and the record fits the shard and t is at most now + ttl, with the default TTL for ttl 0, and at every t if there is neither; otherwise it finds nothing |
| `FlashOps.SetTTLSeen` | storage/flashdb/store.go:571-604 | after SetTTL a lookup finds what it found before up to now + ttl, at every time for ttl <= 0, and nothing for a key that was missing |
| `FlashOps.DeleteSeen` | storage/flashdb/store.go:299-315 | after Delete the key is found at no time |
| `FlashOps.ReadsUnseen` | storage/flashdb/store.go:130-197 | Get, Exists and GetTTL change no lookup of any key from then on |
| `FlashOps.IncrementSeen` | storage/flashdb/store.go:393-434 | after Increment a lookup finds the incremented value for as long as it would have found the old one, part-way failure included |
| `FlashOps.AppendSeen` | storage/flashdb/store.go:451-516 | likewise after Append, except that a value grown beyond its shard is gone |
| `FlashOps.OthersSeen` | storage/flashdb/store.go:120-604 | no operation changes a lookup of another key, except that Set and Append may push it out |
| `FlashOps.GetTTLTells` | storage/flashdb/store.go:534-567 | the answer n > 0 means that the record lives n whole seconds longer but not n + 1; 0 is also given within the second after its end, a full second after it the key is missing, and -1 means for ever |
| `FlashOps.GetTTLRightIff` | storage/flashdb/store.go:534-567 | an answer is given for exactly the keys that are still there at the second clock reading, unless the record ended within the second before it |
| `FlashOps.GetTTLZeroExample` | storage/flashdb/store.go:559-566 | a record that ended one nanosecond ago is answered with 0 |
| `FlashRecency.SketchCountsAccesses` | storage/flashdb/store.go:168-604 | after every run the sketch has counted exactly the Sets and the successful hits of Get, SetTTL, Increment and Append, in order |
| `FlashRecency.OrderedByLastUse` | storage/flashdb/store.go:168-639 | after every run the LRU order of each shard lists its keys by their last use, the latest first; a use is an accepted Set or one of those hits |
| `FlashRecord.GetInMemorySizeInBytes` | utils/system/os.go:53-118 | the recursive size of a value, stopping at the first unsupported kind, equals the declarative size |
| `FlashRecord.ComputeSizeOf` | storage/flashdb/utils.go:66-91 | computeSize gives the same total whatever order the fields are visited in |
| `FlashRecord.AddIntSound` | storage/flashdb/utils.go:29-62 | an int or int32 field becomes the sum, or is refused exactly when the sum leaves the range; int64 becomes the sum modulo 2^64; kind and size stay |
| `FlashRecord.AddIntUndoneIff` | storage/flashdb/utils.go:29-62 | adding a delta and then its negation restores a field if and only if the delta is not the one int64 without a negation and, for a float64 field, the two roundings cancel |
| `FlashRecord.SmallFloatUndoableIff` | storage/flashdb/utils.go:56-57 | for a float64 field of magnitude under 2^53 they cancel exactly when the first sum is exact |
| `FlashRecord.NotUndoneExample` | storage/flashdb/utils.go:29-62 | taking the smallest int64 from 0 and giving it back is refused |
| `FlashRecord.FloatNotUndoneExample` | storage/flashdb/utils.go:56-57 | a float64 field of 0.5 is lost by adding 2^60 and taking it away again |
| `FlashRecord.DecrementUndoesIncrementIff` | storage/flashdb/store.go:393-446 | after a successful Increment, Decrement restores every field if and only if each delta can be undone on its own field, whatever order the two visit the fields in |
| `FlashRecord.IncrementKeepsSize` | storage/flashdb/store.go:413-426 | Increment never changes the size of a value, even when it fails part way |
| `FlashRecord.AppendGrowsSize` | storage/flashdb/store.go:471-487 | Append grows a value by exactly the characters it added |
| `FlashRecord.UpdatesKeepFields` | storage/flashdb/store.go:413-487 | neither adds nor removes a field |
| `FlashRecord.AppendKeepsTruthIff` | storage/flashdb/store.go:471-497 | Append leaves the stored size right if and only if every named field is a string that is there, or nothing but empty texts comes before the first field that is not, or the value has no size |
| `FlashRecord.AppendSafeIff` | storage/flashdb/store.go:471-497 | it does so in every visiting order if and only if every field is a string that is there, or only empty texts go to such fields, or the value has no size |
| `FlashRecord.AppendStopsAtFirstBad` | storage/flashdb/store.go:471-487 | Append fails exactly when some field is missing or no string, and adds as many characters as the texts before the first such one have |
| `FlashRecord.AppendLengthens` | storage/flashdb/store.go:471-487 | the fields before the first bad one hold their old text followed by the suffix, every other field is unchanged |
| `FlashRecord.AppendInAnyOrder` | storage/flashdb/store.go:471-487 | an Append that succeeds gives the same value in every visiting order |
| `FlashRecord.IncrementIsSum` | storage/flashdb/store.go:413-426 | Increment succeeds exactly when every pair is accepted on its own, and then adds every delta and touches no other field, in any order |
| `FlashRecord.StaleSizeExample` | storage/flashdb/store.go:471-487 | a two-field Append whose second field is missing leaves the stored size one byte short |
| `Floats.AddThenSubtractIff` | storage/flashdb/utils.go:56-57 | adding d and taking it away restores a float64 x if and only if the rounding error of the sum is too small to be seen at x |
| `Floats.AbsorbedIffExact` | storage/flashdb/utils.go:56-57 | for magnitudes under 2^53 that is exactly when the first sum needed no rounding |
| `Floats.AddTwiceIff` | storage/flashdb/utils.go:56-57 | adding the same negative number twice restores x exactly when x is too large to feel it |
| `Floats.SumIsFloat` | storage/flashdb/utils.go:56-57 | a rounded sum is a float64 |
| `Floats.SumIsNearest` | storage/flashdb/utils.go:56-57 | and no float64 is nearer to the exact sum |
| `Floats.HalfIsLost` | storage/flashdb/utils.go:56-57 | 0.5 + 2^60 rounds to 2^60 |
| `FlashDb.Shard.RemoveLocked` | storage/flashdb/shard.go:28-37 | removes the key from map and LRU and takes its size off the counter, as the value model says |
| `FlashDb.Shard.Trim` | storage/flashdb/store.go:253-261 | the loop over isFull and tailKeyLocked computes the trimmed shard |
| `FlashDb.Shard.MakeRoom` | storage/flashdb/store.go:273-287 | the admission loop computes the admitted shard and its verdict |
| `FlashDb.Shard.EvictFor` | storage/flashdb/store.go:273-287 | one round drops the tail key exactly when it exists and is no more popular than the newcomer |
| `FlashDb.Shard.Set` | storage/flashdb/store.go:207-295 | the locked section of Set: new shard and answer |
| `FlashDb.Shard.Update` | storage/flashdb/store.go:234-264 | the branch for an existing key |
| `FlashDb.Shard.Insert` | storage/flashdb/store.go:289-294 | the final insertion of a new key |
| `FlashDb.Shard.Charge` | storage/flashdb/store.go:236-246 | the three-way size adjustment is the clamped unsigned difference |
| `FlashDb.Shard.Get` | storage/flashdb/store.go:168-197 | the locked section of Get: value, lazy expiry and recency |
| `FlashDb.Shard.Exists` | storage/flashdb/store.go:130-163 | both locked sections of Exists with nothing between them |
| `FlashDb.Shard.ExistsLook` | storage/flashdb/store.go:139-152 | the read-locked section of Exists |
| `FlashDb.Shard.ExistsFinish` | storage/flashdb/store.go:154-162 | the write-locked section of Exists, on whatever shard it meets |
| `FlashDb.Shard.Delete` | storage/flashdb/store.go:299-315 | the locked section of Delete |
| `FlashDb.Shard.Increment` | storage/flashdb/store.go:393-434 | the locked section of Increment, field by field, including part-way failure |
| `FlashDb.Shard.Append` | storage/flashdb/store.go:451-516 | the locked section of Append, including the size adjustment and the trim loop |
| `FlashDb.Shard.SetTTL` | storage/flashdb/store.go:571-604 | the locked section of SetTTL |
| `FlashDb.Shard.GetTTL` | storage/flashdb/store.go:534-567 | the locked section of GetTTL with its two clock readings |
| `FlashDb.Shard.Sweep` | storage/flashdb/store.go:619-636 | one janitor pass over a shard in any visiting order |
| `FlashDbStore.Store.constructor` | storage/flashdb/store.go:87-104 | a new store is the empty state of the value model |
| `FlashDbStore.Store.ShardFor` | storage/flashdb/store.go:120-126 | the shard index is the hash modulo the number of shards |
| `FlashDbStore.Store.Get` | storage/flashdb/store.go:168-197 | one step of the value model; the answer is the lookup of the unexpired record |
| `FlashDbStore.Store.Exists` | storage/flashdb/store.go:130-163 | one step of the value model; true exactly when a lookup would hit |
| `FlashDbStore.Store.Set` | storage/flashdb/store.go:207-295 | one step of the value model with the answer of the shard; an empty key is an error |
| `FlashDbStore.Store.Delete` | storage/flashdb/store.go:299-315 | one step of the value model; true exactly when the key was stored, expired or not |
| `FlashDbStore.Store.Increment` | storage/flashdb/store.go:393-434 | one step of the value model with its error |
| `FlashDbStore.Store.Decrement` | storage/flashdb/store.go:438-446 | Increment by the wrapped negations, with its error |
| `FlashDbStore.Store.Append` | storage/flashdb/store.go:451-516 | one step of the value model with its error |
| `FlashDbStore.Store.GetTTL` | storage/flashdb/store.go:534-567 | one step of the value model; remaining seconds, -1 or not found |
| `FlashDbStore.Store.SetTTL` | storage/flashdb/store.go:571-604 | one step of the value model; not found exactly when a lookup would miss |
| `FlashDbStore.Store.JanitorTick` | storage/flashdb/store.go:609-639 | one tick of the value model over all shards |
| `FlashDbStore.New` | storage/flashdb/store.go:51-110 | zero options take their defaults; refused exactly for a sketch depth outside 1..8, a width under 16 or no budget |
| `Lru.StackInclusion` | utils/stdlib/lru.go:88-206 | over every trace that both caches see alike, the smaller cache holds exactly the most recently used entries of the larger one, in the same order |
| `Lru.StepKeepsInclusionIff` | utils/stdlib/lru.go:88-206 | one step keeps that inclusion if and only if it is not a Get of a key only the larger cache holds |
| `Lru.UnseenGetExample` | utils/stdlib/lru.go:88-96 | a Get of a key that only the larger cache holds breaks the inclusion |
| `Lru.RunKeysDistinct` | utils/stdlib/lru.go:114-206 | no trace ever makes a key occur twice in the list |
| `LruTraces.HitsAreLastSet` | utils/stdlib/lru.go:88-206 | after every trace a hit is the value last set, and an unbounded cache hits exactly the keys set since they were last deleted or purged |
| `LruTraces.OrderedByLastUse` | utils/stdlib/lru.go:88-206 | after every trace the keys stand in the order of their last Set or hitting Get, the latest first |
| `LruTraces.StepTells` | utils/stdlib/lru.go:88-206 | what each call does to the value of every key; a Set always finds its own value afterwards |
| `Lru.Cache.constructor` | utils/stdlib/lru.go:68-79 | an empty cache |
| `Lru.Cache.Get` | utils/stdlib/lru.go:88-96 | value of the key, moved to the front |
| `Lru.Cache.Peek` | utils/stdlib/lru.go:101-108 | value of the key, nothing moved |
| `Lru.Cache.Set` | utils/stdlib/lru.go:114-131 | front insertion or update with eviction of the tail beyond capacity; says whether it evicted and what the hook saw |
| `Lru.Cache.Delete` | utils/stdlib/lru.go:135-142 | removal and whether the key was there |
| `Lru.Cache.Keys` | utils/stdlib/lru.go:145-153 | keys from most to least recently used |
| `Lru.Cache.Purge` | utils/stdlib/lru.go:158-171 | empty afterwards; the hook sees every entry from least to most recently used |
| `Lru.Cache.TailKey` | utils/stdlib/lru.go:175-183 | the least recently used key |
| `Lru.Cache.EvictTail` | utils/stdlib/lru.go:186-192 | removes the last entry and tells the hook |
| `Lru.Cache.RemoveElement` | utils/stdlib/lru.go:197-206 | keeps list and index in step |
| `Sketch.MassBound` | utils/stdlib/sketch.go:79-129 | with ageing every A > 0 increments, in every run, wrapped operation counters included, a row never weighs more than A - 1 + (n mod A) |
| `Sketch.NoSaturation` | utils/stdlib/sketch.go:79-91 | hence no counter ever saturates when A is at most 2^31 |
| `Sketch.SaturationIff` | utils/stdlib/sketch.go:79-118 | some run saturates a counter if and only if ageing is off or A exceeds 2^31 |
| `Sketch.NeverUnderestimates` | utils/stdlib/sketch.go:79-129 | over every run with ageing, saturation and resets the estimate is at least a per-hash count that is incremented, saturated and halved in step |
| `Sketch.CountersDominate` | utils/stdlib/sketch.go:79-129 | so is every single counter of the hash |
| `Sketch.CellIsTally` | utils/stdlib/sketch.go:79-91 | without ageing a cell is the saturated number of increments of all hashes mapped to it |
| `Sketch.EstimateExactIff` | utils/stdlib/sketch.go:96-106 | without ageing an estimate is exact if and only if some row has no collision or the count has saturated |
| `Sketch.TallyCountsCollisions` | utils/stdlib/sketch.go:96-106 | a cell exceeds the count of its hash exactly when another hash of the run collides there |
| `Sketch.EstimateIsMinimum` | utils/stdlib/sketch.go:96-106 | the estimate is a lower bound of the counters of the hash and is one of them |
| `Sketch.MaskIsModulo` | utils/stdlib/sketch.go:132-141 | masking with width - 1 is the remainder by width when width is a power of two |
| `Sketch.AndPredecessor` | utils/stdlib/sketch.go:70-73 | the power-of-two test w & (w-1) == 0 is right for every positive w |
| `CountMin.CountMinSketch.constructor` | utils/stdlib/sketch.go:47-75 | all counters zero |
| `CountMin.CountMinSketch.Index` | utils/stdlib/sketch.go:132-141 | masked and modulo path give the same column |
| `CountMin.CountMinSketch.Increment` | utils/stdlib/sketch.go:79-91 | saturating increment in every row, then ageing at multiples of A |
| `CountMin.CountMinSketch.Age` | utils/stdlib/sketch.go:110-118 | halves every counter in place |
| `CountMin.CountMinSketch.Reset` | utils/stdlib/sketch.go:121-129 | zeroes everything in place |
| `CountMin.CountMinSketch.Estimate` | utils/stdlib/sketch.go:96-106 | the minimum over the rows |
| `CountMin.NewCountMinSketch` | utils/stdlib/sketch.go:47-75 | refuses exactly depths outside 1..8 and widths under 16 |
| `CountMin.TinyLFU.Record` | utils/stdlib/tiny_lfu.go:72-74 | one increment of the key |
| `CountMin.TinyLFU.RecordN` | utils/stdlib/tiny_lfu.go:78-86 | n increments of the key |
| `CountMin.TinyLFU.ShouldAdmit` | utils/stdlib/tiny_lfu.go:103-112 | compares the two estimates, ties by the configured flag |
| `WorkerProtocol.SlotsConserved` | workers/runtime.go:60-129 | in every interleaving of launches, failures, late and duplicate signals, heartbeat sweeps, delayed restarts, panics and cancellation, the slots of a config add up to its MaxCount |
| `WorkerProtocol.NeverTooMany` | workers/restart.go:12-61 | hence registered workers plus pending delayed restarts never exceed MaxCount |
| `WorkerProtocol.NextKeepsSlots` | workers/watchdog.go:15-96 | each single step conserves the slots of every config |
| `WorkerProtocol.DeparturesUnique` | workers/runtime.go:275-293 | in every run a worker id leaves the registry at most once, causes at most one scheduled restart and is never registered again; the two registry maps stay in step |
| `WorkerProtocol.NextKeepsInv` | workers/runtime.go:194-293 | each single step keeps the invariant behind that |
| `Overseer.RestartsWithinBudget` | workers/restart.go:63-90 | in every run no interval of one window length contains more than the limit of armed restarts of a worker name |
| `Overseer.ArmedIffAllowed` | workers/restart.go:12-61 | a restart timer is armed exactly when the context is live and the budget allows the attempt |
| `Overseer.SignalsSpaced` | workers/runtime.go:209-234 | in every run two emitted failure signals of the same worker are more than the TTL apart |
| `WorkerLife.LeavesIff` | workers/watchdog.go:15-115 | in every run a registered worker leaves the registry exactly when the monitor takes its failure signal, or the watchdog visits it more than the timeout after its launch or last heartbeat; it then waits, with its config, to be rescheduled |
| `WorkerLife.RunBeats` | workers/runtime.go:240-265 | in every run a registered worker carries the time of its launch or last heartbeat, told by the steps |
| `WorkerLife.SignalIff` | workers/runtime.go:194-234 | in every run a failure signal is accepted exactly when none of that worker was accepted within the TTL, and then sent unless the channel is full |
| `WorkerLife.NothingLost` | workers/restart.go:12-61 | a run loses a worker or a launch only to cancellation, a panic of the overseer or an exhausted restart budget |
| `WorkerLife.EverySlotFilled` | workers/restart.go:12-61 | without those, running workers, workers to be rescheduled and launches to come always add up to MaxCount |
| `WorkerLife.ComesBackIff` | workers/overseer.go:93-130 | in every run a panic stops the overseer, and it comes back, with an empty channel, exactly when the context is live and the panics inside its window are within its limit |
| `WorkerLife.OnlyRestartRevives` | workers/overseer.go:119-125 | nothing but that restart brings the overseer back |
| `WorkerLife.RoomForEveryWorker` | workers/overseer.go:131-149 | in every run the channel has room for one signal of every worker there may be, and at least for one |
| `Overseer.CollectHandsOver` | workers/watchdog.go:98-115 | the sweep step of the protocol removes and hands over exactly the workers the collecting loop returns |
| `Overseer.Workers.RegisterRunningWorkerState` | workers/runtime.go:240-265 | both maps get the worker; an empty id is ignored |
| `Overseer.Workers.UnregisterRunningWorkerState` | workers/runtime.go:275-293 | both maps lose the worker; its config is returned |
| `Overseer.Workers.StaleRunningWorkers` | workers/watchdog.go:98-115 | collects and deletes the stale workers in any visiting order |
| `Overseer.Workers.ShouldEmitWorkerFailureSignal` | workers/runtime.go:209-234 | true exactly when no signal of the id is remembered within the TTL; forgets old ones |
| `Overseer.Workers.SignalWorkerFailure` | workers/runtime.go:194-207 | sends at most once, and drops the signal when the channel is full |
| `Overseer.Workers.TrackWorkerRestart` | workers/restart.go:63-90 | new history, count, verdict and delay |
| `RestartBudget.TrackAttempt` | workers/restart.go:71-82 | the pruning loop, shared with the overseer self-restart, keeps the attempts inside the window and appends the new one |
| `RestartBudget.HistoryIsWindow` | workers/restart.go:63-90 | on a clock that never goes back the kept history is exactly the attempts inside the window |
| `RestartBudget.BudgetHolds` | workers/overseer.go:101-111 | no interval of one window length contains more than the limit of allowed attempts |
| `RestartBudget.ComputeWorkerRestartBackoff` | workers/restart.go:92-106 | the doubling loop computes the capped power of two and never leaves int64 |
| `RestartBudget.DelayMonotone` | workers/restart.go:92-106 | for 0 < base <= max the delay is nondecreasing in the count and stays in [base, max] |
| `RestartBudget.DelayDoubles` | workers/restart.go:92-106 | the first delay is base; each further one is twice the last while that leaves at least 2 under max, and max otherwise |
| `RestartBudget.DelayMonotoneIff` | workers/restart.go:92-106 | more restarts never mean a shorter wait if and only if base does not exceed max |
| `RestartBudget.ShorterWaitExample` | workers/restart.go:92-106 | with a minimum of 20 over a maximum of 10 the second restart waits less than the first |
| `ElasticPaging.FoundPanicsIff` | storage/elasticsearch/helper.go:614-662 | search_after panics if and only if the index is not empty and has fewer key pages than the jump wants to skip |
| `ElasticPaging.FoundIff` | storage/elasticsearch/helper.go:557-662 | it answers the window [from, from+size) if and only if no page up to its end splits a tie of sort keys, or, for a window past the end, the jump does not run off the key pages |
| `ElasticPaging.GatherAllIff` | storage/elasticsearch/helper.go:580-609 | reading all documents returns the whole index if and only if no page splits a tie |
| `ElasticPaging.ResumesIff` | storage/elasticsearch/helper.go:600-601 | the page after a search_after key starts right behind the last one if and only if the next key is larger |
| `ElasticPaging.JumpLands` | storage/elasticsearch/helper.go:614-662 | skipping whole pages lands behind as many key pages, ties or not, or meets an empty page exactly when there are too few |
| `ElasticPaging.GatherIsSlice` | storage/elasticsearch/helper.go:577-609 | the page loop, bounded by a limit and splitting no tie, adds up to the slice |
| `ElasticPaging.TieLosesHit` | storage/elasticsearch/helper.go:580-609 | 10001 different hits with one key: reading all of them loses the last |
| `ElasticPaging.FarWindowPanics` | storage/elasticsearch/helper.go:639-645 | one hit and a window from 20000: the search panics instead of answering nothing |
| `ElasticPaging.TiedWindowPanics` | storage/elasticsearch/helper.go:639-645 | 15000 hits with one key and a window from 20000: the tie hides the second page and the search panics |
| `ElasticPaging.JumpToActiveBatch` | storage/elasticsearch/helper.go:614-662 | the jump loop computes the landing place |
| `ElasticPaging.GatherPage` | storage/elasticsearch/helper.go:580-609 | one round of the page loop: part kept, next cursor, and when it ends |
| `ElasticPaging.GatherPages` | storage/elasticsearch/helper.go:557-612 | the page loop computes the gathered documents |
| `ElasticSearch.IncrementalSearch` | storage/elasticsearch/helper.go:506-534 | refuses exactly the invalid queries; unsorted and small searches always answer the window or everything; large sorted ones answer what the pages add up to |
| `ElasticSearch.SearchAfter` | storage/elasticsearch/helper.go:557-612 | jump and page loop together |
| `ElasticSearch.ScrollWindow` | storage/elasticsearch/helper.go:664-742 | a scroll answers exactly the window, with pages of at most 10000 hits and at most ceil((from+size)/10000) requests; the scroll is left uncleared exactly when the first page ends before the window |
| `ElasticSearch.ScrollAll` | storage/elasticsearch/helper.go:664-742 | a scroll over everything returns the index with floor(n/10000) + 1 requests |
| `ElasticSearch.ReadWindow` | storage/elasticsearch/helper.go:767-831 | the session loop collects exactly the rest of the window |
| `ElasticSearch.ReadAll` | storage/elasticsearch/helper.go:767-831 | the session loop collects exactly the rest of the index |
| `ElasticSearch.TakePage` | storage/elasticsearch/helper.go:806-823 | one round: the part of a page inside the window, the window left, and when it ends |
| `ElasticSearch.FetchSizeFits` | storage/elasticsearch/helper.go:677-683 | the evenly filled page size fits one request, is smaller than the window, and the planned pages cover it |
| `PgNamedParams.ConvertQueryAndNamedParams` | storage/postgres/pghelper.go:643-647 | the text is the rendering of the lexed query with names numbered by first occurrence; the arguments are the merged values of the names in that order |
| `PgNamedParams.Converter.Convert` | storage/postgres/pghelper.go:684-692 | the byte-by-byte scanner refines the lexer, in every quoting mode, and always advances |
| `PgNamedParams.Converter.HandleDollarQuote` | storage/postgres/pghelper.go:694-718 | makes the move of the specification, exactly when a dollar quote opens or closes here |
| `PgNamedParams.Converter.HandleSingleQuote` | storage/postgres/pghelper.go:720-734 | likewise for single quotes, doubled ones included |
| `PgNamedParams.Converter.CopyQuotedByte` | storage/postgres/pghelper.go:736-743 | likewise for quoted text |
| `PgNamedParams.Converter.HandleNamedParam` | storage/postgres/pghelper.go:745-763 | likewise for a colon outside quotes |
| `PgNamedParams.Converter.CopyPostgresCast` | storage/postgres/pghelper.go:765-772 | likewise for a double colon |
| `PgNamedParams.Converter.WriteNamedParam` | storage/postgres/pghelper.go:774-784 | writes the number of the name, new or known, and keeps numbers and values in step |
| `PgNamedParams.NamedParamEnd` | storage/postgres/pghelper.go:786-799 | the end of the longest run of name characters |
| `PgNamedParams.ParseDollarTag` | storage/postgres/pghelper.go:887-909 | the dollar tag the text begins with, if any |
| `PgNamedParams.PlaceholderBinds` | storage/postgres/pghelper.go:774-784 | argument k is the parameter of the name written as $k, and k is in 1..n |
| `PgLexer.LexSpells` | storage/postgres/pghelper.go:684-784 | putting every name back for its placeholder restores the query |
| `PgLexer.LiteralVerbatim` | storage/postgres/pghelper.go:720-734 | a string constant with any contents is kept as it stands |
| `PgLexer.DollarVerbatim` | storage/postgres/pghelper.go:694-718 | so is a dollar quote in whose body its tag does not begin early |
| `PgLexer.DollarEndsAtFirstTag` | storage/postgres/pghelper.go:694-707 | a dollar quote ends right after the first place its tag occurs again, or at the end of the query |
| `PgLexer.NumberedInOrder` | storage/postgres/pghelper.go:774-784 | the name met first gets the smaller number |
| `PgLexer.AddNewDistinct` | storage/postgres/pghelper.go:774-784 | no name is numbered twice |
| `PgLexer.IndexOfDistinct` | storage/postgres/pghelper.go:774-784 | the k-th distinct name is the one numbered k |
| `PgLexer.PlaceholdersDiffer` | storage/postgres/pghelper.go:774-784 | different names never share a placeholder |
| `PgLexer.EmitIsRender` | storage/postgres/pghelper.go:774-784 | numbering names on the way gives the same text as numbering them beforehand |
| `PgLexer.ResumeStep` | storage/postgres/pghelper.go:684-784 | one round of the scan means the same as what was left to scan before it |
| `PgManual.AgreesIff` | storage/postgres/pghelper.go:684-784 | the scanner cuts a query as the manual does if and only if no dollar sign in plain text begins a tag that starts with a digit, is glued to an identifier, or has a letter outside ASCII |
| `PgManual.MissedIff` | storage/postgres/pghelper.go:887-909 | among the tags the manual knows, the scanner misses exactly those with a letter outside ASCII |
| `PgManual.DigitTagExample` | storage/postgres/pghelper.go:887-909 | $1$:b, with any digit and any name: the manual reads a positional parameter and a name, the scanner one dollar quote |
| `PgManual.GluedTagExample` | storage/postgres/pghelper.go:694-718 | a$b$:x, with any such characters: the manual reads an identifier and a name, the scanner a dollar quote |
| `PgManual.ForeignTagExample` | storage/postgres/pghelper.go:887-909 | a dollar quote whose tag is a letter outside ASCII: the scanner replaces a name inside it |
| `PgRelex.SurvivesIff` | storage/postgres/pghelper.go:774-784 | read by the manual, the emitted text has the lexemes of the query with a positional parameter for every name if and only if no name directly follows an identifier or a dollar sign of its own |
| `PgRelex.ConvertedSurvivesIff` | storage/postgres/pghelper.go:643-692 | the same of the text the converter returns, for every query the scanner reads as the manual does |
| `PgRelex.NotFreeExamples` | storage/postgres/pghelper.go:774-784 | x:a and $:a are not of that kind |
| `SqlNames.MergeNamedParams` | storage/postgres/pghelper.go:674-682 | folds the parameter maps of a call into one |
| `SqlNames.MergedIsLast` | storage/postgres/pghelper.go:674-682 | a name takes its value from the last map that has it |
| `Decimal.ItoaRoundTrip` | storage/postgres/pghelper.go:774-784 | the numeral of a placeholder reads back as its number |
| `Decimal.ItoaReads` | storage/postgres/pghelper.go:774-784 | and read digit by digit from the left as well; it has no leading zero |
| `PgPlaceholders.InsertBinds` | storage/postgres/pghelper.go:330-345 | over a whole multi-row insert a cell that is not DEFAULT is written $k for the position k of its own value |
| `PgInsertText.InsertReads` | storage/postgres/pghelper.go:206-222 | cutting the text between the parentheses of tuple r at its separators gives one cell for each column, and column c is $k with its own value as argument k |
| `PgInsertText.DefaultReads` | storage/postgres/pghelper.go:206-222 | or DEFAULT for a column that takes its default |
| `PgInsertText.TupleReads` | storage/postgres/pghelper.go:344-344 | a tuple is parenthesised and cuts into the cells in column order |
| `PgInsertText.NumeralsCountUp` | storage/postgres/pghelper.go:221-221 | in the joined tuples the numerals behind dollar signs count up from 1 to the number of values, in reading order |
| `PgPlaceholders.MultiInsertPlaceholders` | storage/postgres/pghelper.go:330-345 | the tuple of one row, its values and the next argument number; DEFAULT consumes none |
| `PgPlaceholders.MultiInsertTuples` | storage/postgres/pghelper.go:206-222 | the tuples and the values of all rows, numbered on from row to row |
| `PgPlaceholders.TupleAt` | storage/postgres/pghelper.go:206-222 | row r starts at one plus the number of values of the rows before it |
| `PgPlaceholders.ConvertWhereParamsToPg` | storage/postgres/pghelper.go:864-882 | repeatedly replacing the first question mark equals one pass from left to right; an error exactly when there are marks and their number is not that of the parameters |
| `PgPlaceholders.MarkBecomes` | storage/postgres/pghelper.go:872-879 | the question mark after i others becomes number start + i, wherever it stands |
| `PgPlaceholders.UpdateClauses` | storage/postgres/pghelper.go:511-537 | SET takes $1..$k in column order, the WHERE clause goes on from there, and the values follow the same order; an error exactly for a refused identifier or, failing that, a wrong number of question marks |
| `PgPlaceholders.UpdateBinds` | storage/postgres/pghelper.go:531-535 | in the text and arguments of an update of k columns the question mark after i others stands as $n with n = k + 1 + i, and argument n is parameter i |
| `MySqlParams.ConvertQueryAndNamedParams` | storage/mysql/helper.go:795-815 | replacing first occurrences match by match equals one rewrite from left to right, whatever prefixes the names share; the values are those of the matches in order |
| `MySqlParams.ReplaceStep` | storage/mysql/helper.go:809-812 | the text of the first match occurs nowhere before it, so one replacement hits that match and uncovers no other |
| `MySqlParams.PiecesRestore` | storage/mysql/helper.go:803-812 | what lies around the matches, filled with the matches, is the query; filled with question marks it is the rewrite |
| `MySqlParams.InClauseIff` | storage/mysql/helper.go:770-815 | written into any query, the IN clause of a non-empty list converts to ?,?,...,? between the conversions of the rest if and only if the column is made of name characters and no name character follows the clause |
| `MySqlParams.InClauseMatches` | storage/mysql/helper.go:803-812 | and then its names are found in order between those of the rest |
| `MySqlParams.QualifiedColumnExample` | storage/mysql/helper.go:770-783 | the IN clause of a qualified column does not convert |
| `MySqlParams.InClauseBinds` | storage/mysql/helper.go:770-783 | and then the values come out in the order they were given |
| `MySqlParams.GetParameterizedInClause` | storage/mysql/helper.go:770-783 | the clause is the keys joined by commas and the map holds each value under its own key |
| `MySqlParams.KeyMapAt` | storage/mysql/helper.go:774-779 | no later key overwrites an earlier one |
| `HtmlEntities.RoundTrip` | utils/encoding/html.go:57-75 | decoding an encoded string gives it back, for every string |
| `HtmlEntities.ReverseRoundTripIff` | utils/encoding/html.go:57-75 | encoding a decoded string gives it back if and only if every special character in it is an ampersand that begins one of the five entities |
| `HtmlEntities.DecodeIsOnePass` | utils/encoding/html.go:68-75 | the five decoding passes equal one simultaneous pass, in every string |
| `HtmlEntities.Stage` | utils/encoding/html.go:68-75 | each pass decodes one more entity and puts no new one together |
| `HtmlEntities.EncodeIsCharwise` | utils/encoding/html.go:57-64 | the five encoding passes encode character by character |
| `Bloom.BitSet.constructor` | utils/stdlib/bitset.go:14-20 | the empty set over ceil(size/64) words |
| `Bloom.BitSet.Set` | utils/stdlib/bitset.go:23-30 | adds the position; an error exactly when it is out of bounds |
| `Bloom.BitSet.Clear` | utils/stdlib/bitset.go:33-40 | removes the position; an error exactly when it is out of bounds |
| `Bloom.BitSet.Toggle` | utils/stdlib/bitset.go:57-64 | flips the position; an error exactly when it is out of bounds |
| `Bloom.BitSet.ClearAll` | utils/stdlib/bitset.go:43-45 | the empty set |
| `Bloom.BitSet.IsSet` | utils/stdlib/bitset.go:48-54 | membership; an error exactly when out of bounds |
| `Bloom.BitSet.CountSetBits` | utils/stdlib/bitset.go:67-73 | the number of positions in the set |
| `Bloom.BitSet.AllSet` | utils/stdlib/bitset.go:92-99 | true if and only if the size is a multiple of 64 and every position is set |
| `Bloom.BitSet.AnySet` | utils/stdlib/bitset.go:102-109 | true exactly when the set is not empty |
| `Bloom.BitSet.NoneSet` | utils/stdlib/bitset.go:112-119 | true exactly when the set is empty |
| `BitSets.PopCount` | utils/stdlib/bitset.go:81-89 | the Kernighan loop counts the ones of a word |
| `BitSets.DropsOne` | utils/stdlib/bitset.go:84-87 | x & (x-1) has exactly one bit fewer, for every non-zero x |
| `BitSets.MaskTests` | utils/stdlib/bitset.go:52-53 | the mask test reads the bit, for every word and index |
| `Bloom.NoFalseNegativesIff` | utils/stdlib/bloom.go:70-106 | over every run of additions, merges and clearings, a key added or merged in since the last clearing is reported present if and only if the filter has at least one bit |
| `Bloom.EmptyFilterExample` | utils/stdlib/bloom.go:47-53 | a filter of size 0 forgets the key it was just given |
| `Bloom.ReportedIff` | utils/stdlib/bloom.go:81-97 | over every run a key is reported exactly when each of its places is a place of some live key |
| `Bloom.NothingReported` | utils/stdlib/bloom.go:81-101 | a filter that is new or just cleared reports no key |
| `Bloom.RunHoldsLive` | utils/stdlib/bloom.go:70-101 | after every run the bits are exactly the places of those keys |
| `Bloom.MergeIsConcatenation` | utils/stdlib/bloom.go:131-149 | merging filters built from two key sequences gives the bits of adding both sequences to one |
| `Bloom.BloomFilter.constructor` | utils/stdlib/bloom.go:47-53 | no bits set; at least one hash function; 111 seeds |
| `Bloom.BloomFilter.Add` | utils/stdlib/bloom.go:70-79 | adds the places of the key; panics if and only if there are bits and more hash functions than seeds; a filter without bits stays as it is |
| `Bloom.BloomFilter.Exists` | utils/stdlib/bloom.go:81-97 | true exactly when all places of the key are set; false for a filter without bits; panics exactly when there are more hash functions than seeds and the places of all seeds are set |
| `Bloom.BloomFilter.ClearAll` | utils/stdlib/bloom.go:99-101 | no bits set |
| `Bloom.BloomFilter.Merge` | utils/stdlib/bloom.go:131-149 | the union; refused exactly for another modulus or hash count or a bit without room here, and then nothing changes |
| `Variants.ValidateVariants` | core/features/validator.go:155-174 | accepts exactly the lists with weights in 0..100 and a total within 0.001 of 100, and otherwise names the first thing wrong |
| `Variants.SelectVariant` | core/features/evaluation.go:113-133 | the first variant whose running total reaches the roll, or the default value |
| `Variants.SelectsIff` | core/features/evaluation.go:124-132 | a roll selects a variant if and only if it does not exceed the total |
| `Variants.BucketsSelect` | core/features/evaluation.go:116-132 | with an accepted list no bucket falls through to the default value |
| `Variants.RandomRollMayMiss` | core/features/evaluation.go:120-132 | an accepted list and a random roll that falls through to the default value |
| `Variants.BucketsPartitioned` | core/features/evaluation.go:116-132 | the 10000 buckets are shared out among the variants, each to one |
| `Variants.BucketShare` | core/features/evaluation.go:116-132 | the number of buckets of a variant is within 1.1 of a hundred times its weight |

## Left out

- FlashDB `MultiGet`, `MultiSet` and `MultiDelete`: each calls the single operation, which is modelled, key by key.
- FlashDB record pointers and the copy made by `clone`: records are values, so a caller who changes a map after
  handing it over is not modelled.
- FlashDbStore.New: does not model a budget of more than 2^63 bytes a shard, where the admission test can wrap around
  (`FlashShard.AdmissionTestExactIff`), nor the janitor's interval.
- FlashDB sizes: runs are those in which every size of an ideal record fits int64.
- FlashDb.Shard.Exists: does not model a step of another goroutine between its two locked sections; `FlashShard`
  states what such a step does to the answer and to the shard.
- FlashDbStore.Store.Exists: is one step of the value model for the same reason.
- FlashRecord.AddIntUndoneIff: does not model float64 fields that are infinite or not a number, nor sums beyond the
  largest float64.
- Goroutines and the memory model: each locked section, each sketch update, each channel operation and each timer
  event is one atomic step.
- Overseer.ArmedIffAllowed: does not model an `OnRestart` hook that panics after the attempt was counted, which leaves
  an allowed attempt without its timer; the overseer's own recovery is modelled as a crash between steps only.
- Overseer.SignalsSpaced: does not model that the clock is read before the lock is taken, so that a caller that waits
  for the lock may use an older time than the one before it.
- Worker statuses, other hooks, logging and the run context handed to workers: they do not influence the registry.
- SafeLRU: its locks do nothing in the code as it stands.
- Hash functions (FNV, Murmur, mix64) are arbitrary functions; nothing is said about their quality.
- Error rates of the sketch and of the Bloom filter, and sizing from a target rate: probability is not modelled.
- Serialization of the Bloom filter.
- BitSet and Bloom sizes so close to 2^64 that the word count wraps around.
- Elasticsearch HTTP errors, bad-request answers, empty scroll ids and the `_source` contents of hits: only successful
  answers are modelled, and a query whose `_source` has the wrong type is refused.
- Elasticsearch window arithmetic: from + size does not overflow int64, and the ceilings are exact rather than
  floating point.
- Identifier quoting and validation, the sorting of update columns, and reflection over struct tags in the SQL
  helpers: the quoting is an arbitrary function that may refuse, and columns, fields and row values are inputs.
- PostgreSQL comments, quoted identifiers and escape string constants (sections 4.1.5, 4.1.1 and 4.1.2.2 of its
  manual): neither the scanner nor the model knows them.
- `HashKey` and everything that talks to a database.
- `StripHTMLTags` and `ContainsHTMLTags`.
- Float rounding of variant weights and rolls: reals are used.
- Feature rules and conditions, and the cryptographic randomness behind a roll without a bucket key.
- Redis, cloud, router, session, telemetry, configuration, notifier and logging code.
