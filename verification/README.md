# Verified models of the forge compiler's data structures and transformations

This project models six parts of the compiler and of its utility library, and proves what they promise.

- **Insertion-ordered hash table** (`Bits`, `LoadFactor`, `OrderedSpec`, `RobinHood`, `RangeErase`, `RangeEraseExact`,
  `RangeEraseHomes`, `OrderedHash`, `OrderedRuns`). `RobinHood` holds the displacement chain, the backward shift and the
  renumbering as functions on the sequence of buckets, with their invariants: the Robin Hood shape (a bucket is at most
  one further from home than its predecessor, and at home after an empty one), and the bijection between occupied
  buckets and positions in the value sequence. `OrderedHash.Table` is the class with its array and fields updated in
  place; every method is proved against the plain duplicate-free sequence. `OrderedRuns` lifts this to runs of any
  operations, with the load policy that decides when the array grows and when a call is refused. Range erase does not
  always keep the buckets right; `RangeEraseExact` says exactly when it does, and `RangeEraseHomes` turns that into a
  condition on the buckets before the call.
- **Early freeing** (`Sorting`, `Freeing`, `GeneratedForward`). Which intermediate tensors the generated forward
  function frees after which operation, the order in which it is written, with repeated submodule calls as loops, and a
  small semantics of the written lines in which a freed tensor has lost its value.
- **Graph construction** (`TraceGraph`, `GraphNames`, `TraceOrder`, `NameClashes`, `GivenNames`, `GraphConstruction`,
  `GraphMeaning`). The worklist that turns a traced tensor DAG into named nodes and port-numbered edges. Its invariant is
  a conservation law: every operand position of every node is filled by exactly one edge made or still queued.
  `GraphNames` defines the graph that the worklist would make if no name were refused; `TraceOrder` and `NameClashes` tell
  all names, those made up included, from the trace and say when none is refused; `GivenNames` says when the given names
  decide that alone. `GraphConstruction` holds the class, and `GraphMeaning` evaluates the graph and the trace and
  compares them.
- **Blocking queue** (`BlockingQueue`). The mutex and the condition variable as interleaved critical sections of any
  number of threads, each asleep, woken or outside, with spurious wake-ups. The class methods are the critical sections.
- **Optimizers** (`Tensors`, `AdamOptimizer`, `LambOptimizer`). Each optimizer twice, as an op trace with looped-back
  state and as an in-place reference, over real numbers with a non-negative square root; whole runs are compared.
- **Unique operations** (`UniqueOperands`, `UniqueOps`, `UniqueOrder`, `UniqueTable`, `UniqueClasses`). How operations
  are prepared, and the two-level first-match table in which an entry matches when its arguments are contained in the
  new ones; what depends on the order of feeding, and what does not.

`Wrappers` holds the option type.

Keys of the hash table stand for keys up to the container's key equality, so equal keys have one hash. The largest
number of buckets that can be allocated is a parameter of at most 2^32; index and stored hash have 32 bits, a full hash
has 64. Load factors are real numbers. `firstReadable` records whether `m_first_or_empty_bucket` points to a bucket:
after a request for no buckets on an empty table that has some it points to nothing (line 1142 of `ordered_hash.hpp`,
against the comment at lines 1500-1504), and such a table is not valid.

The graph's inputs are given as one list of tensors with, optionally, one argument name for each; the id that the graph
library gives to the first node is a parameter, and ids count up from it. `max_size` of the blocking queue is a 32-bit
`int` that is compared with a `size_t`, so a negative bound is a very large one; the model converts it the same way, and
the most items the deque can hold is a parameter.

Results about the code that are not what one would hope for, each with its condition:

- `RangeErase.WrappedEntryIsLost`: range erase can drop a value's bucket when an entry has been displaced across the end
  of the bucket array. `RangeEraseHomes.HomesDecide` says exactly when, for every range, by the homes and indexes before
  the call; `RangeEraseExact.OneValueExactly` does so for a single value.
- `OrderedRuns.SecondInsertionFails`: in a debug build, growth with a small load factor violates an assertion of
  `rehash_impl`; `OrderedRuns.GrowthCovers` is its condition, and `RunGrowthCovers` the load factors for which it holds.
- `OrderedHash.Table.Rehash` and `Reserve`: zero buckets for an empty table with buckets leaves it invalid.
- `Bits.RoundUpToPowerOfTwo`: 0 for arguments above 2^63.
- `NameClashes.ReturnedTwice` and `InputTwice`: a forward that returns a computed tensor twice, or one input twice and
  then another, cannot be built, because node names repeat; and `GivenNames.ConstantClash`: the name made up for a module
  constant can be an operation's. `GraphConstruction.GraphBuilder.GenerateGraph` says for every trace exactly when the
  names differ, and `GivenNames.GivenDecide` when the given ones decide.
- `BlockingQueue.BoundedGetsStuck`: in a bounded queue a producer can sleep although there is room, with no wake-up under
  way. `BlockingQueue.NoLostWakeUp` gives the exact bounds.
- `LambOptimizer.RunsAgree`: the trace clips before it selects and the reference after, so they agree if and only if the
  clip interval contains 1.
- `UniqueOps.EarlierMayContainLater` and `UniqueOrder.EqualArgsMayStop`: what the table holds, and whether filling it
  finishes, depends on the order in which operations are fed. `UniqueOrder.TableOrderFreeExactly` says exactly when every
  order finishes with the same contents; the order of entries and of listed values follows the order of feeding.
- `UniqueOps.MissingNameStops`: an update stops with a KeyError when the matched entry lacks one of the metadata names;
  `UniqueOrder.UnrefusedExactly` and `AlwaysUnrefusedExactly` say when a run does, in its order or in any order.

## Model

| member | source | states |
|---|---|---|
| `OrderedHash.Table.constructor` | utils/ordered_associative_containers/ordered_hash.hpp:424-452 | a new table is empty and valid; its array has no bucket or the least power of two that is at least the request; the load factor is clamped to [0.1, 0.95] |
| `OrderedHash.Table.Create` | utils/ordered_associative_containers/ordered_hash.hpp:438-452 | construction fails exactly when no power of two at least the request can be allocated |
| `OrderedHash.Table.SetMaxLoadFactor` | utils/ordered_associative_containers/ordered_hash.hpp:904-908 | any request is clamped to [0.1, 0.95] and the threshold follows it |
| `OrderedHash.Table.BucketForHash` | utils/ordered_associative_containers/ordered_hash.hpp:1429 | masking a hash gives its home bucket, the hash modulo the bucket count |
| `OrderedHash.Table.TruncatedHome` | utils/ordered_associative_containers/ordered_hash.hpp:1405-1419 | the home bucket computed from the stored 32-bit hash is the one computed from the full hash |
| `OrderedHash.Table.DistanceFromIdealBucket` | utils/ordered_associative_containers/ordered_hash.hpp:1405-1419 | the number of steps from an entry's home to its bucket, across the end of the array too |
| `OrderedHash.Table.FindKey` | utils/ordered_associative_containers/ordered_hash.hpp:1098-1119 | although it stops early the probe finds the bucket of a stored key, and it ends without a bucket only when the key is not stored; it ends even in a full array |
| `OrderedHash.Table.Find` | utils/ordered_associative_containers/ordered_hash.hpp:836-841 | the position of the key in insertion order, or the size |
| `OrderedHash.Table.Count` | utils/ordered_associative_containers/ordered_hash.hpp:817-828 | 1 if some value has the key, else 0 |
| `OrderedHash.Table.ProbeForInsert` | utils/ordered_associative_containers/ordered_hash.hpp:1276-1292 | finds a stored key, or ends where an entry for the key may begin its displacement |
| `OrderedHash.Table.Insert` | utils/ordered_associative_containers/ordered_hash.hpp:1273-1310 | appends a value with a new key, leaves the values alone and answers the old position for a stored key, and is refused exactly when the indexes are used up or the array is due to grow and cannot |
| `OrderedHash.Table.InsertNew` | utils/ordered_associative_containers/ordered_hash.hpp:1294-1309 | the insertion proper, after growth when it is due |
| `OrderedHash.Table.Append` | utils/ordered_associative_containers/ordered_hash.hpp:1305-1307 | appending a value and placing its entry keeps the table valid |
| `OrderedHash.Table.InsertIndex` | utils/ordered_associative_containers/ordered_hash.hpp:1372-1403 | the in-place displacement loop places the entry as the recursive chain does, and asks for growth exactly after more than 128 probes at a load of at least 0.15 |
| `OrderedHash.Table.MeetBucket` | utils/ordered_associative_containers/ordered_hash.hpp:1169-1175 | the exchange with an entry closer to its home |
| `OrderedHash.Table.GrowOnHighLoad` | utils/ordered_associative_containers/ordered_hash.hpp:1442-1455 | grows exactly when due, to twice the buckets or to one; afterwards there is an empty bucket |
| `OrderedHash.Table.RehashImpl` | utils/ordered_associative_containers/ordered_hash.hpp:1121-1178 | keeps the values, gives the least power-of-two array for the request with an index of the same values, and fails, without effect, exactly when no such array fits (the debug assertion of line 1123 is OrderedRuns.RunGrowthCovers) |
| `OrderedHash.Table.Rebuild` | utils/ordered_associative_containers/ordered_hash.hpp:1140-1178 | the new array indexes the same values |
| `OrderedHash.Table.ReinsertAll` | utils/ordered_associative_containers/ordered_hash.hpp:1149-1177 | moving every entry by displacement into an empty array yields an index of the same values |
| `OrderedHash.Table.Reinsert` | utils/ordered_associative_containers/ordered_hash.hpp:1159-1176 | the displacement loop of the rehash places the entry as the recursive chain does |
| `OrderedHash.Table.Rehash` | utils/ordered_associative_containers/ordered_hash.hpp:910-914 | keeps the values and gives the least array for the larger of the request and what the values need, refused exactly when none can be allocated; the table stays valid unless an empty table with buckets is asked for none |
| `OrderedHash.Table.Reserve` | utils/ordered_associative_containers/ordered_hash.hpp:916-922 | afterwards the requested number of values fits below the load threshold; refused exactly when no such array can be allocated |
| `OrderedHash.Table.BackwardShiftBuckets` | utils/ordered_associative_containers/ordered_hash.hpp:1195-1206 | the in-place swap loop is the recursive backward shift, and it ends |
| `OrderedHash.Table.ShiftIndexesDown` | utils/ordered_associative_containers/ordered_hash.hpp:1234-1252 | every index after the erased value goes down by one and nothing else changes |
| `OrderedHash.Table.LocateIndex` | utils/ordered_associative_containers/ordered_hash.hpp:1242-1248 | the search by old index from the home of the value's full hash asks occupied buckets only and ends at the one bucket that holds it |
| `OrderedHash.Table.EraseValueFromBucket` | utils/ordered_associative_containers/ordered_hash.hpp:1208-1226 | removes the value of the bucket, keeps the order of the others and keeps the table valid |
| `OrderedHash.Table.EraseBucket` | utils/ordered_associative_containers/ordered_hash.hpp:1218-1225 | renumbering, clearing and shifting back yield the erased bucket array |
| `OrderedHash.Table.Erase` | utils/ordered_associative_containers/ordered_hash.hpp:1254-1268 | erases the value with the key if there is one and says how many were erased |
| `OrderedHash.Table.EraseAt` | utils/ordered_associative_containers/ordered_hash.hpp:673-689 | erases at a position; the answer is the position of the value that followed |
| `OrderedHash.Table.UnorderedErase` | utils/ordered_associative_containers/ordered_hash.hpp:1029-1057 | the last value takes the place of the erased one |
| `OrderedHash.Table.SwapWithLast` | utils/ordered_associative_containers/ordered_hash.hpp:1043-1052 | exchanges two values and their indexes and keeps the table valid |
| `OrderedHash.Table.Clear` | utils/ordered_associative_containers/ordered_hash.hpp:558-567 | an empty valid table |
| `OrderedHash.Table.EraseRange` | utils/ordered_associative_containers/ordered_hash.hpp:691-741 | the values are those without the slice; the table stays valid if and only if the homes and indexes before the call spare the later values, so whenever the entries displaced across the end belong to values before the end of the range, the range reaches the last value, or bucket 0 is empty or at home |
| `OrderedHash.Table.WalkBuckets` | utils/ordered_associative_containers/ordered_hash.hpp:711-738 | the in-place walk is the recursive walk, and it ends |
| `RobinHood.PathOccupied` | utils/ordered_associative_containers/ordered_hash.hpp:1091-1097 | all buckets from an entry's home to the entry are occupied, at distances at least the steps taken |
| `RobinHood.ProbeMeets` | utils/ordered_associative_containers/ordered_hash.hpp:1099-1119 | a probe for a stored key is not stopped before it comes to the entry |
| `RobinHood.NoCrossing` | utils/ordered_associative_containers/ordered_hash.hpp:1191-1206 | no entry lies beyond an empty bucket from its home |
| `RobinHood.MeetKeepsShape` | utils/ordered_associative_containers/ordered_hash.hpp:1378-1390 | each exchange of the displacement chain keeps the Robin Hood shape |
| `RobinHood.PlaceKeepsShape` | utils/ordered_associative_containers/ordered_hash.hpp:1372-1403 | the whole chain keeps the shape, and leaves some bucket empty or at home |
| `RobinHood.PlaceLinks` | utils/ordered_associative_containers/ordered_hash.hpp:1372-1403 | the chain keeps the entries it displaces and adds the new one |
| `RobinHood.ProbeStep` | utils/ordered_associative_containers/ordered_hash.hpp:1281-1292 | each step of the insertion probe ends where an entry may start |
| `RobinHood.AppendPlaces` | utils/ordered_associative_containers/ordered_hash.hpp:1305-1307 | placing the entry of an appended value yields an index of the longer sequence |
| `RobinHood.MoveBackShrinks` | utils/ordered_associative_containers/ordered_hash.hpp:1200-1205 | each swap of the backward shift lowers the total displacement by one |
| `RobinHood.MoveBackKeepsHoledShape` | utils/ordered_associative_containers/ordered_hash.hpp:1200-1205 | during the shift the shape holds but for the hole |
| `RobinHood.BackwardShiftRestoresShape` | utils/ordered_associative_containers/ordered_hash.hpp:1195-1206 | after the shift the shape holds everywhere, across the array's end too |
| `RobinHood.BackwardShiftLinks` | utils/ordered_associative_containers/ordered_hash.hpp:1195-1206 | the shift moves entries and loses none |
| `RobinHood.SomeEmpty` | utils/ordered_associative_containers/ordered_hash.hpp:1442-1455 | with fewer values than buckets some bucket is empty |
| `RobinHood.Vacancy` | utils/ordered_associative_containers/ordered_hash.hpp:1149-1177 | during a rehash there is an empty bucket for the next entry |
| `RobinHood.RenumberStep` | utils/ordered_associative_containers/ordered_hash.hpp:1238-1251 | lowering one more index touches exactly the one bucket that holds it, although the erased entry is still there |
| `RobinHood.DroppingLinks` | utils/ordered_associative_containers/ordered_hash.hpp:1208-1226 | after renumbering and clearing the buckets index the values without the erased one |
| `RobinHood.ErasedKeepsIndex` | utils/ordered_associative_containers/ordered_hash.hpp:1208-1226 | order-preserving erasure yields an index of the shorter sequence |
| `RobinHood.SwapLinks` | utils/ordered_associative_containers/ordered_hash.hpp:1043-1052 | swapping two indexes matches swapping two values |
| `RangeErase.CutCommutes` | utils/ordered_associative_containers/ordered_hash.hpp:717-722 | a clearing with backward shift commutes with the renumbering of the buckets already passed unless it carries a renumbered entry back |
| `RangeErase.SweepCuts` | utils/ordered_associative_containers/ordered_hash.hpp:711-738 | the interleaved walk does what clearing the whole range first and renumbering afterwards would |
| `RangeErase.LoweredLinks` | utils/ordered_associative_containers/ordered_hash.hpp:723-727 | renumbering the rest yields an index of the values without the slice |
| `RangeErase.SweepIsRight` | utils/ordered_associative_containers/ordered_hash.hpp:691-741 | if none is carried back the walk yields the index of the values without the slice |
| `RangeErase.WrappedEntryIsLost` | utils/ordered_associative_containers/ordered_hash.hpp:691-741 | a concrete table in which erasing one value by range empties the bucket array of the other |
| `RangeEraseExact.SweepWeight` | utils/ordered_associative_containers/ordered_hash.hpp:711-738 | the walk never raises the sum of the final indexes, and lowers it whenever a renumbered entry is carried back |
| `RangeEraseExact.SweepIsRightExactly` | utils/ordered_associative_containers/ordered_hash.hpp:691-741 | range erase yields the index of the remaining values if and only if no renumbered entry is carried back |
| `RangeEraseExact.OneValueExactly` | utils/ordered_associative_containers/ordered_hash.hpp:691-741 | for one value: it is right unless every later bucket and bucket 0 hold displaced entries, that of bucket 0 for a later value |
| `RangeEraseExact.EarlyIsHarmless` | utils/ordered_associative_containers/ordered_hash.hpp:691-741 | none is carried back while the entries displaced across the end all belong to values before the end of the range |
| `RangeEraseExact.UnwrappedIsEarly` | utils/ordered_associative_containers/ordered_hash.hpp:691-741 | there are no such entries when bucket 0 is empty or at home |
| `RangeEraseHomes.ShiftMovesRun` | utils/ordered_associative_containers/ordered_hash.hpp:1195-1206 | a backward shift moves the run of displaced entries after the hole by one bucket each, across the array's end too, and nothing else |
| `RangeEraseHomes.CutMovesRun` | utils/ordered_associative_containers/ordered_hash.hpp:717-722 | clearing a bucket of a Robin Hood array moves the run after it back by one bucket, even when every other entry is displaced |
| `RangeEraseHomes.WalkShowsInHomes` | utils/ordered_associative_containers/ordered_hash.hpp:711-738 | whether the walk will ever carry a renumbered entry back shows in the homes and indexes before it, at every bucket of the walk |
| `RangeEraseHomes.HomesDecide` | utils/ordered_associative_containers/ordered_hash.hpp:691-741 | for any range: erasing it yields the index of the remaining values if and only if one pass over the homes and indexes before the call finds that every entry carried back to the end of the array belongs to a value before the range |
| `RangeEraseHomes.EarlyIsSpared` | utils/ordered_associative_containers/ordered_hash.hpp:691-741 | two simpler cases in which that holds: the entries displaced across the end belong to values before the end of the range, or there are none |
| `RangeEraseHomes.SweepOutcome` | utils/ordered_associative_containers/ordered_hash.hpp:691-741 | the walk's result and the exact condition for it to be right |
| `Bits.MaskIsMod` | utils/ordered_associative_containers/ordered_hash.hpp:1429 | masking with 2^k - 1 is reduction modulo 2^k |
| `Bits.TruncationKeepsBucket` | utils/ordered_associative_containers/ordered_hash.hpp:1405-1429 | keeping 32 bits of a 64-bit hash never moves its bucket, if and only if there are at most 2^32 buckets |
| `Bits.PowerOfTwoTest` | utils/ordered_associative_containers/ordered_hash.hpp:1478 | the branch-free test decides being a power of two |
| `Bits.SmearStep` | utils/ordered_associative_containers/ordered_hash.hpp:1470-1473 | each shift-or doubles the run of ones below the top bit |
| `Bits.RoundUpToPowerOfTwo` | utils/ordered_associative_containers/ordered_hash.hpp:1457-1476 | the least power of two at least the argument, up to 2^63; 0 above, where the addition wraps |
| `LoadFactor.CeilDiv` | utils/ordered_associative_containers/ordered_hash.hpp:910-914 | the rounded-up quotient is large enough and at most tenfold |
| `LoadFactor.Threshold` | utils/ordered_associative_containers/ordered_hash.hpp:904-908 | below the bucket count, and the largest number of values within the load factor |
| `OrderedRuns.Perform` | utils/ordered_associative_containers/ordered_hash.hpp:213-221 | each operation of a valid table, range erase included, answers and changes the values, the number of buckets, the load factor and the pending growth as the plain sequence with its load policy does; refusals have exactly their causes |
| `OrderedRuns.PerformAll` | utils/ordered_associative_containers/ordered_hash.hpp:213-221 | every run of a table is a run of the plain sequence with its load policy |
| `OrderedRuns.RunKeepsDistinct` | utils/ordered_associative_containers/ordered_hash.hpp:213-221 | no run ever holds two values with one key |
| `OrderedRuns.RunKeepsSized` | utils/ordered_associative_containers/ordered_hash.hpp:1121-1178 | in every state of a run there are no buckets or an allocatable power of two of them |
| `OrderedRuns.RunRefusesExactly` | utils/ordered_associative_containers/ordered_hash.hpp:1294-1310 | at any point of a run a value is refused if and only if its key is new and either the indexes are used up, or growth is due and twice the buckets cannot be allocated |
| `OrderedRuns.RunGrowthCovers` | utils/ordered_associative_containers/ordered_hash.hpp:1123 | in no run does a growing rehash ask for fewer buckets than its values need, as a debug build asserts, while the maximal load factor is at least one half |
| `OrderedRuns.SecondInsertionFails` | utils/ordered_associative_containers/ordered_hash.hpp:1123 | with the least load factor the second insertion into a table without buckets violates that assertion |
| `OrderedRuns.PerformRangeErase` | utils/ordered_associative_containers/ordered_hash.hpp:691-741 | range erase within a run is a call exactly when the buckets spare the later values, and then removes the slice |
| `OrderedRuns.RunsAgree` | utils/ordered_associative_containers/ordered_hash.hpp:213-221 | up to the first refusal or unsafe range erase, two runs of the same operations from the same values agree: nothing else shows the hash function, the buckets, the load factor or what can be allocated |
| `Sorting.SortedSorts` | forge/forge/tvm_to_python.py:2750 | the keys come out in ascending order, each once |
| `Freeing.CountConsumers` | forge/forge/tvm_to_python.py:2739-2749 | counts every read, with one reserved for a returned name, and collects the outputs |
| `Freeing.UsesSorted` | forge/forge/tvm_to_python.py:2743-2750 | counting in dict order or in key order makes no difference |
| `Freeing.LastReadCounts` | forge/forge/tvm_to_python.py:2755-2757 | the count is zero exactly at the last read of a name that is not returned |
| `Freeing.DeleteUnneededOutputs` | forge/forge/tvm_to_python.py:2738-2757 | appends to every operation, in key order, exactly the operation outputs that it reads last and that are not returned |
| `Freeing.MarkLastReads` | forge/forge/tvm_to_python.py:2751-2757 | the same for one operation, also when it reads a name twice |
| `Freeing.MarkAll` | forge/forge/tvm_to_python.py:2750-2757 | the loop over the operations in key order marks every last read |
| `GeneratedForward.CallLine` | forge/forge/python_codegen.py:252-271 | a submodule call that stands for others becomes one loop over exactly that many layers, every other operation a single call |
| `GeneratedForward.ForgeWriter.WriteSubmoduleCall` | forge/forge/python_codegen.py:252-271 | the branches over the loop's bounds write that line |
| `GeneratedForward.ForgeWriter.WriteOperation` | forge/forge/python_codegen.py:252-278 | a call or a loop of calls and, unless it is a submodule call or deletion is off, the frees |
| `GeneratedForward.ForgeWriter.WriteForward` | forge/forge/python_codegen.py:239-286 | operations in key order, repeated submodule calls as loops, each followed by its frees, then the return |
| `GeneratedForward.GenerateForward` | forge/forge/tvm_to_python.py:2738-2759 | annotating and writing give the program with frees after the last readers |
| `GeneratedForward.FreedIsDead` | forge/forge/tvm_to_python.py:2751-2757 | what is freed after an operation is an operation's output that is neither returned nor read later |
| `GeneratedForward.RepeatKeepsRelated` | forge/forge/python_codegen.py:253-267 | however many layers a loop runs, both runs fail in the same one or stay alike on every name still needed |
| `GeneratedForward.OperationKeepsRelated` | forge/forge/python_codegen.py:239-278 | an operation or loop with its frees fails in both runs or keeps them alike on every name still needed, whatever lines follow |
| `GeneratedForward.FreesChangeNothing` | forge/forge/python_codegen.py:239-286 | from every point on, the run with frees and the run without end alike |
| `GeneratedForward.FreeingPreservesMeaning` | forge/forge/tvm_to_python.py:2702-2757 | the generated forward returns the same with and without frees and fails in the same cases, for every program that frees no name taken at the start before an operation has made it; loops may carry inputs along |
| `GeneratedForward.ReadsMadeSuffice` | forge/forge/tvm_to_python.py:2738-2757 | every topologically ordered program is such a program |
| `GeneratedForward.UnmadeFreeFails` | forge/forge/python_codegen.py:276-278 | a program that is not, and that fails with frees and runs without |
| `GeneratedForward.FreeCount` | forge/forge/tvm_to_python.py:2751-2757 | an operation frees a name once if it is its last reader, however often it reads it, otherwise never |
| `GeneratedForward.FreedExactlyOnce` | forge/forge/tvm_to_python.py:2739-2757 | an output that is read and not returned is freed exactly once, unless its last reader is a submodule call, and nothing else ever is |
| `GraphConstruction.GraphBuilder.AddNode` | forge/csrc/graph_lib/graph.hpp:345-370 | adds the node unless its name is already in the graph; the names stay distinct |
| `GraphConstruction.GraphBuilder.CreateOutput` | forge/forge/compile.py:1139-1176 | one named output node queued with its tensor, an error for an output neither computed nor given, and an error for a name already taken, each exactly when it applies |
| `GraphConstruction.GraphBuilder.NameOutput` | forge/forge/compile.py:1144-1171 | the name of an output, and whether it was computed or given |
| `GraphConstruction.GraphBuilder.CreateOutputs` | forge/forge/compile.py:1139-1176 | builds the start of the worklist if and only if all outputs are traceable and their names differ; otherwise the error that comes first |
| `GraphConstruction.GraphBuilder.StepParameter` | forge/forge/compile.py:1193-1216 | a parameter node, its edge and its record, or the assertion for a recorded name, or a refused name |
| `GraphConstruction.GraphBuilder.StepNode` | forge/forge/compile.py:1251-1353 | an input, target, constant or operation node with its edge and its operands queued by port, or a refused name |
| `GraphConstruction.GraphBuilder.VisitPassthrough` | forge/forge/compile.py:1224-1249 | an input node that feeds the output through a nop, or a refused name of either |
| `GraphConstruction.GraphBuilder.Step` | forge/forge/compile.py:1182-1353 | serves the head of the queue as the worklist without name checks does, or stops exactly when that adds a refused name |
| `GraphConstruction.GraphBuilder.ServePending` | forge/forge/compile.py:1180-1353 | the worklist ends with the draft if and only if the draft's names all differ, and otherwise with the error of its first refused name |
| `GraphConstruction.GraphBuilder.GenerateGraph` | forge/forge/compile.py:1139-1353 | for every trace: built if and only if every output was computed or given and all names of outputs, reachable tensors and nops differ, made-up names included, as read off the trace; if the parameters are named and no given name might be a made-up one, if and only if the given names differ; then it is a complete graph of the reachable tensors, otherwise the outcome is the error that comes first |
| `GraphNames.DraftServed` | forge/forge/compile.py:1180-1353 | without name checks the worklist ends, has served every queued operand and visited exactly the reachable tensors |
| `GraphNames.DraftComplete` | forge/forge/compile.py:1139-1353 | that graph is complete, whichever output node each returned tensor is mapped to |
| `GraphNames.StepAdvances` | forge/forge/compile.py:1182-1353 | one step keeps the invariant, stays within the reachable tensors and makes progress |
| `GraphNames.VerdictBuilt` | forge/csrc/graph_lib/graph.hpp:345-370 | adding nodes one by one is never refused if and only if their names are distinct |
| `GraphNames.OutputsClash` | forge/forge/compile.py:1165-1172 | outputs with equal names are refused as a repeated name |
| `TraceOrder.FirstServed` | forge/forge/compile.py:1180-1187 | a tensor is first met at the least node and port that want it, so its name is made from that consumer and port |
| `TraceOrder.FinishSees` | forge/forge/compile.py:1180-1353 | the worklist comes to the tensors in the breadth-first order of the trace |
| `NameClashes.OrderIsReach` | forge/forge/compile.py:1180-1353 | that order lists the reachable tensors, each once |
| `NameClashes.ConsumerIs` | forge/forge/compile.py:1180-1223 | the consumer and port a name is made from are those of the first output that is the tensor or else of the first operation in that order that reads it |
| `NameClashes.NamesAreOfTrace` | forge/forge/compile.py:1144-1337 | for every trace, the names in the graph differ if and only if those of the trace's outputs, reachable tensors and passed-through inputs do, made-up ones included |
| `GivenNames.MadeUpOneToOne` | forge/forge/compile.py:1219-1223 | a name made up for an input tells its port and its consumer's name |
| `GivenNames.GivenDecide` | forge/forge/compile.py:1144-1337 | names that differ include given names that differ; if the parameters are named and no given name might be made up for an input that is no argument, given names that differ are all it takes |
| `GivenNames.ConstantClash` | forge/forge/compile.py:1219-1223 | a concrete trace in which a constant's made-up name is the name of an operation |
| `NameClashes.RepeatedParameter` | forge/forge/compile.py:1195-1206 | the assertion about a repeated parameter name fails only when two reachable parameters have the same name, given or made up |
| `NameClashes.AcceptedParameters` | forge/forge/compile.py:1195-1216 | when nothing is refused the names of the reachable parameters differ |
| `NameClashes.ReturnedTwice` | forge/forge/compile.py:1163-1172 | a computed tensor returned at two positions is always refused |
| `NameClashes.ResultTwice` | forge/forge/compile.py:1163-1172 | a concrete forward that returns its only result twice is refused although it is traceable |
| `NameClashes.InputTwice` | forge/forge/compile.py:1147-1158 | a concrete forward that returns one input twice and then another is refused: the generated name counts different inputs |
| `TraceGraph.ConnectKeepsInv` | forge/forge/compile.py:1184-1187 | an edge from a node already made keeps the invariant |
| `TraceGraph.VisitKeepsInv` | forge/forge/compile.py:1326-1353 | a new node with its operands queued keeps the invariant |
| `TraceGraph.AddNopKeepsInv` | forge/forge/compile.py:1235-1246 | adding a passthrough nop keeps the invariant |
| `GraphNames.WithNopKeepsInv` | forge/forge/compile.py:1226-1248 | the whole treatment of a passed-through input keeps the invariant |
| `TraceGraph.PassthroughPort` | forge/forge/compile.py:1245-1246 | a passed-through input is first met at an output, so the constant port 0 is the port wanted |
| `TraceGraph.ReachIsLeast` | forge/forge/compile.py:1352-1353 | reachability is the least set closed under operands that holds the outputs |
| `TraceGraph.VisitedIsReach` | forge/forge/compile.py:1180-1186 | when the queue is empty the visited tensors are exactly the reachable ones |
| `GraphMeaning.OneEdgePerSlot` | forge/forge/compile.py:1350-1353 | every operand position of every node has exactly one edge |
| `GraphMeaning.OneNodePerTensor` | forge/forge/compile.py:1184-1187 | every reachable tensor has exactly one node, with its attributes, and no other tensor has one |
| `GraphMeaning.NodeValue` | forge/forge/compile.py:1336-1353 | the node of a tensor has the traced value of the tensor |
| `GraphMeaning.GraphComputesTrace` | forge/forge/compile.py:1139-1353 | evaluating the graph at an output node gives the traced expression |
| `GraphMeaning.TraceIsValuation` | forge/forge/compile.py:1139-1353 | the traced values satisfy the graph, so there is something to evaluate to |
| `BlockingQueue.ThreadSafeQueue.FromWait` | utils/thread_safe_queue.hpp:49-104 | waiting, changing the queue and notifying make one step of the protocol |
| `BlockingQueue.ThreadSafeQueue.Enter` | utils/thread_safe_queue.hpp:49-104 | a call is a step of the protocol and pops hand out the front |
| `BlockingQueue.ThreadSafeQueue.Resume` | utils/thread_safe_queue.hpp:51-64 | a woken thread's second look is a step of the protocol |
| `BlockingQueue.ThreadSafeQueue.NotifyOne` | utils/thread_safe_queue.hpp:66 | some sleeper is woken if there is one |
| `BlockingQueue.ThreadSafeQueue.ClearQueue` | utils/thread_safe_queue.hpp:106-110 | empties the queue and wakes nobody |
| `BlockingQueue.SectionKeepsInv` | utils/thread_safe_queue.hpp:49-104 | every critical section keeps the wake-up invariant of a queue whose pushes never block |
| `BlockingQueue.RunKeepsInv` | utils/thread_safe_queue.hpp:49-104 | in every reachable state of a queue whose pushes never block, while a consumer sleeps at least as many are awake as there are items |
| `BlockingQueue.SomeoneTakesIt` | utils/thread_safe_queue.hpp:89-104 | while a consumer sleeps and there is an item, some woken thread's next section takes one |
| `BlockingQueue.BoundKept` | utils/thread_safe_queue.hpp:49-104 | in every reachable state, spurious wake-ups included, the queue holds at most max_size items if that is positive, and never more than the deque can |
| `BlockingQueue.BoundedGetsStuck` | utils/thread_safe_queue.hpp:62-104 | with any bound within the deque's capacity a producer can sleep although there is room, with no wake-up under way, because pops do not notify |
| `BlockingQueue.NoLostWakeUp` | utils/thread_safe_queue.hpp:34-104 | no wake-up is ever lost if and only if max_size is 0 or, converted to the size type, beyond the deque's capacity |
| `BlockingQueue.PositiveBoundsGetStuck` | utils/thread_safe_queue.hpp:34-104 | for a deque that holds between 2^31 and 2^63 items, wake-ups can be lost if and only if max_size is positive |
| `BlockingQueue.Conservation` | utils/thread_safe_queue.hpp:49-110 | what was pushed is what was popped, cleared or is still queued, whatever the bound |
| `BlockingQueue.FirstInFirstOut` | utils/thread_safe_queue.hpp:65-94 | without front pushes and clears, items come out in the order they went in |
| `AdamOptimizer.StepSimulates` | forge/forge/optimizers.py:323-416 | one evaluation of the op trace gives the tensors of one in-place reference step |
| `AdamOptimizer.RunsAgree` | forge/forge/optimizers.py:323-416 | for every run and either weight decay, without bias correction, trace and reference hold the same parameter, mean and variance |
| `AdamOptimizer.AdamNoBiasCorrection.Step` | forge/forge/torch_optimizers.py:38-65 | the in-place operations compute the reference step |
| `AdamOptimizer.AdamNoBiasCorrection.DecayWeights` | forge/forge/torch_optimizers.py:45-48 | scales the parameter or adds to the gradient, never both |
| `AdamOptimizer.AdamNoBiasCorrection.UpdateMoments` | forge/forge/torch_optimizers.py:51-54 | the two moving averages, the second staying non-negative |
| `AdamOptimizer.TrainReference` | forge/forge/torch_optimizers.py:38-65 | an optimizer stepped through a run holds the run's tensors |
| `AdamOptimizer.AverageBounds` | forge/forge/optimizers.py:335-350 | a moving average from zero is its total weight times something between the bounds of its history |
| `AdamOptimizer.WeightIsCorrection` | forge/forge/optimizers.py:357-368 | that total weight is 1 - beta^t |
| `AdamOptimizer.RunLoopedState` | forge/forge/optimizers.py:411-415 | after t steps the looped-back powers are beta^t and the moments are moving averages of the effective gradients and their squares |
| `AdamOptimizer.CorrectedMomentsBounded` | forge/forge/optimizers.py:356-388 | both corrections are positive, and corrected mean and variance lie within the bounds of the gradients and of their squares |
| `AdamOptimizer.CorrectedUpdate` | forge/forge/optimizers.py:372-408 | the trace's factors and reciprocals amount to the bias-corrected Adam step |
| `Tensors.SqrtOfQuotient` | forge/forge/optimizers.py:369-374 | dividing roots is the root of the quotient |
| `LambOptimizer.ReduceSumIsSum` | forge/forge/optimizers.py:660-664 | reducing one dimension after the other is the sum of all elements |
| `LambOptimizer.TrustRatiosAgree` | forge/forge/optimizers.py:692-727 | the branch-free trust ratio is the reference's if/else for all norms and any value of 1/0, if and only if the clip interval contains 1 |
| `LambOptimizer.StepSimulates` | forge/forge/optimizers.py:613-739 | one evaluation of the trace is one reference step |
| `LambOptimizer.RunSimulates` | forge/forge/optimizers.py:613-739 | every run of the trace is a run of the reference |
| `LambOptimizer.RunsAgree` | forge/forge/torch_optimizers.py:216-280 | all runs agree if and only if the clip interval contains 1 |
| `LambOptimizer.ZeroParameterDiverges` | forge/forge/torch_optimizers.py:270-280 | without 1 in the interval a zero parameter diverges in the first step |
| `LambOptimizer.Lamb.Step` | forge/forge/torch_optimizers.py:237-280 | the in-place operations compute the reference step |
| `LambOptimizer.Lamb.UpdateMoments` | forge/forge/torch_optimizers.py:239-244 | the two moving averages, the second staying non-negative |
| `UniqueOps.FirstMatch` | forge/forge/tvm_unique_op_generation.py:259-265 | the first entry whose arguments are contained in the new ones |
| `UniqueOps.UpdateKeepsIrredundant` | forge/forge/tvm_unique_op_generation.py:258-268 | no entry's arguments are ever contained in a later entry's |
| `UniqueOps.UpdateCovers` | forge/forge/tvm_unique_op_generation.py:258-268 | an update records its operation exactly if the matched entry lists every metadata name |
| `UniqueOps.UpdateKeepsCover` | forge/forge/tvm_unique_op_generation.py:258-268 | what was recorded stays recorded, in the same entry |
| `UniqueOps.CoveredChangesNothing` | forge/forge/tvm_unique_op_generation.py:261-263 | a recorded operation changes nothing when it comes again |
| `UniqueOps.FedCovers` | forge/forge/tvm_unique_op_generation.py:258-268 | after a run every operation fed is recorded |
| `UniqueOps.EntriesAreOpened` | forge/forge/tvm_unique_op_generation.py:258-268 | the entries, in order, are the arguments and metadata names of exactly the operations that no earlier operation's arguments are contained in |
| `UniqueOps.AcceptedExactly` | forge/forge/tvm_unique_op_generation.py:258-268 | feeding a group never runs into a KeyError if and only if, for every operation, the first earlier one whose arguments are contained in its own has all its metadata names |
| `UniqueOps.MissingNameStops` | forge/forge/tvm_unique_op_generation.py:261-263 | two operations that run into a KeyError |
| `UniqueOps.EarlierMayContainLater` | forge/forge/tvm_unique_op_generation.py:124-135 | two operations whose number of entries depends on the order of feeding |
| `UniqueOrder.EntriesAreMade` | forge/forge/tvm_unique_op_generation.py:258-268 | the table of a group has an entry with given arguments if and only if an operation opens it, no earlier one's arguments being contained in its own |
| `UniqueOrder.UncontainedHolds` | forge/forge/tvm_unique_op_generation.py:258-268 | when no arguments properly contain another's and nothing stops, an entry lists exactly the metadata of the operations with its very arguments |
| `UniqueOrder.OrderFreeExactly` | forge/forge/tvm_unique_op_generation.py:258-268 | every order of feeding a group finishes, and with the same entries and listed metadata up to their order, if and only if no operation's arguments properly contain another's and operations with the same arguments have the same metadata names |
| `UniqueOrder.AlwaysAcceptedExactly` | forge/forge/tvm_unique_op_generation.py:258-268 | no order of feeding a group runs into a KeyError if and only if an operation whose arguments are contained in another's has all its metadata names |
| `UniqueOrder.TableOrderFreeExactly` | forge/forge/tvm_unique_op_generation.py:397-470 | every order of feeding the table finishes, and with the same entries and listed metadata in every group up to their order, if and only if, among operations with the same function name and operands, no arguments properly contain another's and those with the same arguments have the same metadata names |
| `UniqueOrder.EqualArgsMayStop` | forge/forge/tvm_unique_op_generation.py:258-268 | two operations with equal arguments of which one order finishes and the other runs into a KeyError |
| `UniqueOrder.OneOrderFinishes` | forge/forge/tvm_unique_op_generation.py:258-268 | two operations with contained arguments of which only the order that makes two entries finishes |
| `UniqueOrder.UnrefusedExactly` | forge/forge/tvm_unique_op_generation.py:397-470 | a run never stops with a KeyError if and only if, for every operation, the first one before it with the same function name and operands whose arguments are contained in its own has all its metadata names |
| `UniqueOrder.AlwaysUnrefusedExactly` | forge/forge/tvm_unique_op_generation.py:397-470 | no order of the run stops with a KeyError if and only if this holds of every two operations with the same function name and operands |
| `UniqueOps.ListsExactlyTheCarried` | forge/forge/tvm_unique_op_generation.py:261-263 | an entry lists exactly the metadata of the operations it is the first match of |
| `UniqueOps.FedKeepsEachOnce` | forge/forge/tvm_unique_op_generation.py:262-263 | no list holds a value twice |
| `UniqueTable.GroupUpdated` | forge/forge/tvm_unique_op_generation.py:314-323 | an operation changes the group of its function name and operands and no other |
| `UniqueTable.GroupOfProcessed` | forge/forge/tvm_unique_op_generation.py:397-470 | every group sees exactly its own operations, in order |
| `UniqueTable.ProcessedKeepsKeysDistinct` | forge/forge/tvm_unique_op_generation.py:314-323 | operand keys under a function name stay distinct |
| `UniqueTable.SameNamesUnrefused` | forge/forge/tvm_unique_op_generation.py:261-263 | operations that carry the same metadata names never run into a KeyError |
| `UniqueTable.ProcessedInParts` | forge/forge/tvm_unique_op_generation.py:393-470 | processing in two parts, from any existing table, is processing at once |
| `UniqueTable.UnrefusedInParts` | forge/forge/tvm_unique_op_generation.py:393-470 | a run stops with a KeyError exactly if one of its two parts does, the second on the table the first leaves |
| `UniqueTable.GroupsAreUnique` | forge/forge/tvm_unique_op_generation.py:397-470 | every group is irredundant, has one entry per opening operation and lists exactly the metadata of the operations it stands for |
| `UniqueTable.ProcessedCovers` | forge/forge/tvm_unique_op_generation.py:397-470 | every processed operation is recorded in an entry whose arguments are contained in its own |
| `UniqueTable.ProcessedAgain` | forge/forge/tvm_unique_op_generation.py:397-470 | feeding any of the operations again, in any order, leaves the table as it is |
| `UniqueClasses.OpArgsOpMetadata.Record` | forge/forge/tvm_unique_op_generation.py:261-263 | records the metadata in any order of names, and fails exactly at a name without a list |
| `UniqueClasses.OpArgsOpMetadata.Update` | forge/forge/tvm_unique_op_generation.py:258-268 | the in-place update, and what a failed one leaves |
| `UniqueClasses.UniqueOperationInfo.AddOperandsArgs` | forge/forge/tvm_unique_op_generation.py:314-323 | the in-place update of the group for the operands, or a new group |
| `UniqueClasses.UniqueOperations.AddOperation` | forge/forge/tvm_unique_op_generation.py:463-468 | the in-place update of the table under the function name |
| `UniqueOperands.ValidateNodeTypes` | forge/forge/tvm_unique_op_generation.py:347-366 | true exactly if every operand with a name and a type is known with that type |
| `UniqueOperands.ShapesOfConstants` | forge/forge/tvm_unique_op_generation.py:434-445 | constants take the shape of their parameter, (1,) if that has none; fails exactly for a constant without a parameter |
| `UniqueOperands.Prepare` | forge/forge/tvm_unique_op_generation.py:404-461 | succeeds exactly when no assertion fails and no name is unknown, and yields the converted types, shapes, lowered formats, arguments and metadata |
| `UniqueOperands.LoweredFormats` | forge/forge/tvm_unique_op_generation.py:447-456 | after lowering no other floating-point format is left |
| `UniqueOperands.LoweringMerges` | forge/forge/tvm_unique_op_generation.py:447-459 | operations that differ only in floating-point formats fall into one group with the same arguments |
| `UniqueClasses.AddAll` | forge/forge/tvm_unique_op_generation.py:397-470 | the loop over the operations in the given order; it fails exactly at the first assertion or KeyError |
| `UniqueClasses.CreateUniqueOperations` | forge/forge/tvm_unique_op_generation.py:393-470 | prepares the operations and feeds them in key order into the existing or a new table |

## Left out

Hash table:

- OrderedHash.Table.EraseRange: nothing is promised about lookups in a table whose buckets the walk has left wrong; only its values are stated.
- OrderedRuns.PerformAll: no call that leaves the table invalid, or whose request does not fit the size type, is made in a run; what a step leaves in the bucket array is not told, only how long it is.
- Insertion before the end (`insert_at_position_impl`): it renumbers upwards in ascending order, so a bucket just renumbered can be taken for the next one; it is not modelled.
- Hint, range and assigning forms of insertion, `at`, `operator[]`, `equal_range`, iterators and comparison: thin layers over the modelled members.
- Copy, move and swap, allocators, transparent lookup, exceptions thrown by user code or by the allocation of the values, and rounding of `float` load factors.

Early freeing and generated code:

- GeneratedForward.FreeingPreservesMeaning: an operation is assumed to make a new tensor, and no name of a graph input, parameter or constant to be freed before an operation has made it, as in every topologically ordered program.
- `set_src_layer`, argument text and the rest of the emitted file.

Graph construction:

- GraphConstruction.GraphBuilder.GenerateGraph: one subgraph, so a repeated parameter name is always an error.
- Nodes of operations of type "constant", loopback inputs, nested input structures and the argument names of several modules, shapes, formats, tags and stored intermediate values.
- A parameter that is both an input and an output.

Blocking queue:

- `front`, `back`, `at`, `empty`, `size` and the copy constructor: they read under the lock.
- Fairness of the scheduler; what is proved is that a wake-up is not lost, not that a woken thread gets its turn.

Optimizers:

- AdamOptimizer.RunsAgree: amsgrad is off, as the trace has no counterpart; rounding is not modelled.
- LambOptimizer.RunsAgree: correction is off, tensors have at most two dimensions, epsilon is positive.
- LARS, whose reference never stores its momentum, the SGD optimizers, `torch_parameter_update` and the registration of parameters.
- Several parameters in one optimizer: they do not interact.

Unique operations:

- UniqueClasses.CreateUniqueOperations: a failed assertion, an unknown name and a KeyError are one outcome; which formats are floating-point ones, and how formats and operand names are stored as arguments and metadata, are parameters.
- What the table is printed to and exported as.
