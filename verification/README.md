# Verified model of the Flow123d core

Flow123d is a simulator of flow and transport in fractured porous media. This project models five of
its mechanisms in Dafny and proves what they are for:

1. **Distributed numbering of degrees of freedom** (`Mesh`, `Partition`, `Numbering`, `Handshake`,
   `Exchange`, `Distribute`, `FlatTables`, `DofTables`, `DofHandler`, `DofSession`; `Sequential`,
   `SequentialSession`; `DofSharing`; `Component`, `SubExchange`, `SubHandler`, `SubDistribute`, `SubSession`, `SubRuns`,
   `SubMesh`, `SubCreate`, `SubChain`). Processes partition the cells, the lowest process with a cell on
   a node or edge numbers its dofs, and two passes of pairwise sessions bring the numbers to all ghost
   cells. Proved: the exchange never deadlocks and always finishes with blocking sends, nobody answers
   with a number it does not have, all processes agree, the numbering is a bijection, the tables of all
   processes follow every run of the exchange until `get_dof_indices` gives the global numbers, two dofs
   of any cells get one number exactly if they are equally placed on a common node or edge, the
   sequential handler built from those tables gives the owners' lists, and the sub-handler of a component
   of a system, built from them, is right exactly where the owner of a ghost dof is a ghost neighbour.
2. **Finite elements** (`Monomials`, `RealSums`, `ShapeFunctions`, `Lagrange`, `Gradients`,
   `ElementSystem`, `FeValues`, `FeMaps`). Two odometer loops list monomials and support points; shape
   functions are dual to dofs, interpolate and sum to one, those of the Lagrange element are 1 at their
   own node and 0 at the others, and their gradients are their derivatives and sum to zero;
   compound elements and their flat tables of values mean their parts.
3. **The field value cache** (`CacheRegions`, `CachePoints`, `CacheMap`, `FieldCache`, `FieldSet`,
   `CacheExamples`). Cached reads of all fields of a set agree with direct evaluation if every computed
   field stands after its inputs, for any order in which hash maps are iterated.
4. **Time history of fields** (`TimeLimits`, `FieldHistory`, `FieldLimits`). A ring of three records
   behaves like the full list of time records, and the algorithm in force is that of the last item up to
   the time, or before it for left limits.
5. **Balance accounting** (`BalanceSums`, `BalanceBuffer`, `BalanceRuns`, `Balance`, `BalanceCalls`,
   `BalanceTotals`). Nothing is lost between processes, the reduce buffer and the running integrals, over
   any list of calls, and what is written is the sum of what the calls brought.

`Lists` holds the shared vocabulary of sequences and prefix sums, `Options` a missing value. Where the
source updates tables in place there are classes or methods with loops (`ElementPartition`, `DofTables`,
`SubNumbering`, `SystemValues`, `ElementCacheMap`, `Field`, `Ledger`), each proved against functions of
the mesh or of the old state; the theorems are about those functions and about state machines over whole
runs.

Verify with `dafny verify dfyconfig.toml`.

## How the model reads the source

- Nodes and edges are treated alike, as *faces*: the branches of `distribute_dofs` and
  `update_local_dofs` for them are the same text with other tables.
- Hypotheses on mesh and elements (`WellFormed`): rows of cells are contiguous per process in rank
  order; cells on a common edge share a tree node; all cells of one dimension use the same element; dofs
  lie on nodes, on sides or inside, with equally many on each node and on each side. The code asserts
  the last one (src/fem/dofhandler.cc:387).
- A session is four messages, each a rendezvous: a standard-mode send may block until it is matched
  (section 3.4 of MPI 3.1).
- Matrix inversion returns a two-sided inverse; fresh vectors and matrices are zero.
- Real numbers stand for floating-point ones. Only the comparison of times keeps its tolerance,
  because the code relies on it.
- Iteration over hash maps is an arbitrary listing of the keys.

## What does not hold, and when it does

Every item has its exact condition and a lemma or method at an input where it fails.

- A ghost dof of a sub-handler whose owner is not a ghost neighbour keeps the parent's number
  (`SubMesh.SubHandlerNumbers` is an if-and-only-if). On three cells in a row on three processes, after
  every complete run of both exchanges, process 2 holds 3 for a dof whose sub-number is 1, and 3 is also
  the sub-number of a dof it owns: its local-to-global map is not injective
  (`SubChain.ChainGhostNumberWrong`; `SubChain.ChainRun` shows that there are such runs).
- `mark_used_eval_points` for an element that was not added enters it at position 0; positions and
  elements are inverse to each other exactly if it was added (`CacheMap.ElementCacheMap.MarkUsedEvalPoints`,
  `CacheExamples.MarkMissing`).
- `create_elements_points_map` reads `region_element_cache_range_[21]`, one past the end, exactly if all
  regions have one element and the entries after theirs, left from earlier rounds, continue the count
  (`CacheMap.OverrunIff`): with twenty elements in twenty regions, and with nineteen in the round after
  that (`CacheExamples.TwentyRegions`). The value is not used.
- A start after a round that was not finished resets the counter and not the region lists: the lists then
  hold the leftovers and what the counter counts, and elements are written past the end of the cache
  exactly if these two together exceed twenty (`CacheExamples.Restart`, `CacheExamples.RestartOverfills`).
- A computed field that stands before one of its inputs in the field set gets values of the round before
  (`FieldSet.UpdateAll` for any order, `FieldSet.ReversedIsStale`); in the right order it gets the direct
  value (`FieldSet.Round`).
- A record with the time of the newest one is meant to overwrite it (comment at
  src/fields/field.impl.hh:483-486); it does so exactly if the ring holds only one record, because the
  oldest entry is compared (`FieldHistory.RewriteIff`, `FieldHistory.RewriteKeepsBoth`).
- The left limit is the last record before the time exactly if the second newest record is earlier by
  more than the tolerance (`FieldHistory.LeftLimit`, `FieldHistory.LeftLimitTooClose`).
- The CSV error column is zero for a conserving run exactly if what was contributed before the first
  output is zero (`BalanceRuns.CsvErrorExact`, `BalanceRuns.LateOutputHasError`).
- The legacy error column subtracts the incoming flux, which the header comment of
  src/coupling/balance.hh also does; for a conserving run it is what was contributed before the first
  output less twice the integrated flux, and zero exactly if these are equal
  (`BalanceRuns.LegacyErrorExact`, `BalanceRuns.InflowHasLegacyError`). The model follows the code in both
  formats.
- A second output without new instant values counts the tables of the other processes once more, because
  process 0 keeps the collected totals as its own tables; it gives the same totals exactly if the others
  hold nothing (`Balance.SecondOutput`, `BalanceCalls.WriteTwice`).

## Model

| member | source | states |
|---|---|---|
| MeshModel.SlotInFace | src/fem/dofhandler.cc:329-388 | the running count of a shared dof is below the dof count of its node or edge, and the cell has that face |
| MeshModel.SlotOnCell | src/fem/discrete_space.hh:100-121 | every dof of a node or edge is a dof of every cell on it |
| MeshModel.FaceMakesAdjacent | src/fem/dofhandler.cc:602-623 | cells on a common node or edge share a tree node |
| MeshModel.LowestProcess | src/fem/dofhandler.cc:115-158 | a face with a cell has a lowest process, not above the process of that cell |
| MeshModel.OwnerUnique | src/fem/dofhandler.cc:115-158 | a slot has exactly one owner |
| Partition.GhostsExact | src/fem/dofhandler.cc:593-642 | the ghost list holds exactly the foreign cells that share a tree node, or are coupled, with an own cell, each once |
| Partition.LocalCellsDistinct | src/fem/dh_cell_accessor.hh:64-68 | local index and cell determine each other; own cells are those of the process |
| Partition.IsGhostSymmetric | src/fem/dofhandler.cc:602-642 | a ghost cell of r makes a cell of r a ghost cell of its process |
| Partition.NeighboursFormNetwork | src/fem/dofhandler.cc:602-642 | ghost neighbourhood is symmetric, so every session has two ends |
| Partition.SplitIsWanted | src/fem/dofhandler.cc:617-641 | the per-process tables list exactly the neighbours and the cells wanted from each |
| Partition.NeighbourList | src/fem/dofhandler.cc:580-587 | following the listed couplings gives the same ghosts as going through all couplings |
| Partition.ElementPartition.PushGhost | src/fem/dofhandler.cc:617-620 | one more ghost keeps all four tables describing the list |
| Partition.ElementPartition.MapOwnCells | src/fem/dofhandler.cc:589-591 | own cells get local indices 0, 1, ... |
| Partition.ElementPartition.ListEdges | src/fem/dofhandler.cc:566-578 | exactly the edges of own cells, ascending |
| Partition.ElementPartition.MarkLocalNodes | src/fem/dofhandler.cc:593-600 | exactly the nodes of own cells are marked |
| Partition.ElementPartition.HasLocalNode | src/fem/dofhandler.cc:607-614 | true exactly if some node of the cell belongs to an own cell |
| Partition.ElementPartition.ListNodeGhosts | src/fem/dofhandler.cc:602-623 | the tables describe the ghosts found through nodes |
| Partition.ElementPartition.ListCouplingGhosts | src/fem/dofhandler.cc:624-642 | the tables describe the ghosts after following the couplings |
| Partition.ElementPartition.MakeElemPartitioning | src/fem/dofhandler.cc:561-643 | the tables describe the ghost list of the mesh, the cell-to-local map inverts the local cells, neighbours and wanted cells are right |
| Numbering.LocalIsOwned | src/fem/dofhandler.cc:325-389 | process r numbers exactly the slots it owns, each once |
| Numbering.GlobalInjective | src/fem/dofhandler.cc:325-405 | different slots have different global numbers |
| Numbering.GlobalSurjective | src/fem/dofhandler.cc:393-405 | every number below the global size is that of a slot |
| Numbering.GlobalOfLocal | src/fem/dofhandler.cc:399-405 | local number j of process r becomes offset + j, the global number of its j-th slot |
| Numbering.GlobalInRange | src/fem/dofhandler.cc:393-405 | global numbers lie in the range of their owner |
| Handshake.EnabledIsPaired | src/fem/dofhandler.cc:161-210 | a message passes only between the two ends of the same session |
| Handshake.PassingKeepsStep | src/fem/dofhandler.cc:409-432 | the two ends of every session stay in step |
| Handshake.LowerFirst | src/fem/dofhandler.cc:407-432 | a process that answers has already requested from all lower neighbours |
| Handshake.RequestsOnce | src/fem/dofhandler.cc:409-432 | a process requests from each neighbour once |
| Handshake.AllRequested | src/fem/dofhandler.cc:409-432 | a finished process has requested from all neighbours |
| Handshake.SessionsAscend | src/fem/dofhandler.cc:409-432 | every process visits its sessions in one global order of pass and ranks |
| Handshake.NoDeadlock | src/fem/dofhandler.cc:161-210 | while a process is unfinished some message can pass |
| Handshake.PassingLowersWork | src/fem/dofhandler.cc:409-432 | each message lowers the remaining work by two |
| Exchange.AddCellsCorrect | src/fem/dofhandler.cc:221-268 | entering received cells keeps every table entry equal to the global number |
| Exchange.AnswerGood | src/fem/dofhandler.cc:182-210 | correct tables give correct answers |
| Exchange.OwnCellsResolved | src/fem/dofhandler.cc:270-299 | the induction over ranks: whoever answers has numbers for all dofs of its own cells |
| Exchange.RequestsAnswerable | src/fem/dofhandler.cc:182-210 | in every reachable state the cells asked for are the answerer's own and resolved, so an unset dof is never an index |
| Exchange.NumbersArrive | src/fem/dofhandler.cc:213-300 | receiving dof numbers keeps the invariant |
| Exchange.StepKeepsInv | src/fem/dofhandler.cc:161-300 | every message keeps the invariant of the whole system |
| Exchange.Progress | src/fem/dofhandler.cc:409-432 | unless all have finished some message can pass without failing |
| Exchange.RunInv | src/fem/dofhandler.cc:409-432 | the invariant holds in every state of every run |
| Exchange.RunsComplete | src/fem/dofhandler.cc:409-432 | every run is bounded, and a run that cannot continue has finished everywhere |
| Exchange.CompleteFrom | src/fem/dofhandler.cc:409-432 | every run can be continued to a complete one |
| Exchange.FinishedIsComplete | src/fem/dofhandler.cc:409-432 | then each process has the numbers of all dofs of its own and requested cells |
| Distribute.LayoutOfMeshOk | src/fem/dofhandler.cc:303-438 | every well-formed mesh meets the conditions of the exchange |
| Distribute.CompleteRunExists | src/fem/dofhandler.cc:409-432 | every mesh has a complete run |
| Distribute.ExchangeCompletes | src/fem/dofhandler.cc:409-432 | on every mesh every run is bounded and ends finished |
| Distribute.NumbersAgree | src/fem/dofhandler.cc:213-432 | after the exchange process r has the global number of every dof of each own or ghost cell |
| Distribute.ProcessesAgree | src/fem/dofhandler.cc:115-432 | two processes that see the same slot hold the same number, and different numbers for different slots |
| Distribute.LocalToGlobalMap | src/fem/dofhandler.cc:213-432 | the local-to-global map is injective, starts with the owned range in order, and has no later entry in it |
| FlatTables.RecordNew | src/fem/dofhandler.cc:343-350 | recording a newly numbered slot keeps a flat table exact everywhere |
| Lists.PrefixSums | src/fem/dofhandler.cc:75-112 | cell and face starts are the prefix sums of the dof counts |
| DofTables.VisitedGrow | src/fem/dofhandler.cc:331-388 | rows already visited stay right while own slots are appended |
| DofTables.UpdateEntry | src/fem/dofhandler.cc:278-298 | an entry with a number keeps it, one without is looked up again |
| DofTables.DofTables.PushFace | src/fem/dofhandler.cc:343-350 | numbering a face appends all its slots and keeps the tables exact |
| DofTables.DofTables.VisitShared | src/fem/dofhandler.cc:336-380 | a node or edge dof: numbered on the first visit if owned, otherwise the cell is marked for update |
| DofTables.DofTables.VisitInterior | src/fem/dofhandler.cc:381-385 | an interior dof gets the next number |
| DofTables.DofTables.RecordShared | src/fem/dofhandler.cc:231-260 | an unnumbered shared dof gets the next local number and the received global one, any other is left alone |
| DofTables.DofTables.EnterInterior | src/fem/dofhandler.cc:260-264 | an interior dof of a ghost cell is appended with the received number |
| DofTables.DofTables.UpdateShared | src/fem/dofhandler.cc:281-297 | an unset entry of an own cell is set from its node or edge |
| DofHandler.OwnershipByGhosts | src/fem/dofhandler.cc:115-158 | the status test (own cell and no ghost cell of a lower process) decides ownership exactly |
| DofHandler.InitStatus | src/fem/dofhandler.cc:115-158 | a face is valid exactly if the process owns it |
| DofHandler.Locate | src/fem/dofhandler.cc:329-388 | running counts find the slot of each dof: the node or edge of the cell with the number of its n-face, and the count of equal dofs before it; `DofSharing.SharedNumbers` says what that means for the numbers |
| DofHandler.TableSizes | src/fem/dofhandler.cc:75-112 | dof counts of all local cells and of all faces |
| DofHandler.BuildTables | src/fem/dofhandler.cc:310-324 | empty tables with the rows, owners and status of the mesh |
| DofHandler.NumberCell | src/fem/dofhandler.cc:326-388 | one own cell extends the slots by its newly visited owned slots and makes its row right |
| DofHandler.NumberOwnCells | src/fem/dofhandler.cc:325-389 | the loop numbers exactly the slots of the process, in order |
| DofHandler.ShiftNumbers | src/fem/dofhandler.cc:399-405 | every owned number is shifted by the offset of the process |
| DofHandler.GetDofIndices | src/fem/dofhandler.cc:544-553 | the numbers of the slots of the cell |
| DofHandler.SendCounts | src/fem/dofhandler.cc:192-199 | dof counts of the requested cells |
| DofHandler.SendDofs | src/fem/dofhandler.cc:201-209 | exactly the answer of the exchange model |
| DofHandler.EnterCell | src/fem/dofhandler.cc:225-265 | all dofs of a ghost cell are entered as the exchange model says |
| DofHandler.EnterCells | src/fem/dofhandler.cc:221-268 | all received cells are entered, at the offsets of their dof counts |
| DofHandler.UpdateOwnCells | src/fem/dofhandler.cc:270-299 | every row of an own cell is right again |
| DofHandler.UpdateLocalDofs | src/fem/dofhandler.cc:213-300 | the tables stand for the state of the exchange model after the message |
| DofSession.InitialTables | src/fem/dofhandler.cc:303-405 | numbering and shift give the tables that the exchange starts from, all rows right |
| DofSession.StartAll | src/fem/dofhandler.cc:303-405 | from the mesh and the offsets alone, the tables of all processes stand for the first state of every run |
| DofSession.KnownNext | src/fem/dofhandler.cc:409-432 | a request adds the rows of exactly the cells it asked for, an answer adds none |
| DofSession.ReadyToReceive | src/fem/dofhandler.cc:213-300 | in every session the cells asked for are ghost cells not entered before, with no interior dof numbered yet, and the rows of own cells wait for no interior dof |
| DofSession.SendAnswer | src/fem/dofhandler.cc:182-210 | the counts and numbers sent are those of the exchange model: no unset dof is read from `dof_indices` |
| DofSession.ReceiveDofs | src/fem/dofhandler.cc:213-300 | the tables after an answer are those of the exchange model, and all rows of own and received cells are right |
| DofSession.PassMessage | src/fem/dofhandler.cc:161-300 | after any message the tables of all processes stand for the next state of the model |
| DofSession.RunHasSchedule | src/fem/dofhandler.cc:409-432 | every run is a list of messages |
| DofSession.FollowRun | src/fem/dofhandler.cc:407-432 | the tables follow every run of the exchange model |
| DofSession.FinishedRowKnown | src/fem/dofhandler.cc:213-300 | when a process has finished, every row of `dof_indices` is set and right |
| DofSession.CellIndices | src/fem/dofhandler.cc:544-553 | then get_dof_indices gives the global number of every dof of every own and ghost cell |
| DofSession.DistributeDofs | src/fem/dofhandler.cc:303-438 | distribute_dofs on all processes, over any complete run, ends with all rows known everywhere |
| DofSharing.SharedNumbers | src/fem/dofhandler.cc:329-388 | two dofs of any cells have one global number exactly if they are the same dof of one cell, or lie on the same node, or on the same edge, of the cells with as many equal dofs before them |
| DofSharing.SharedIndices | src/fem/dofhandler.cc:544-553 | so it is for the lists that any two processes read for any two of their cells |
| DofSharing.RangeOfLowest | src/fem/dofhandler.cc:115-158 | the number of a dof lies in the range of the lowest process that has a cell with that dof |
| DofSharing.FirstCellFirst | src/fem/dofhandler.cc:331-388 | a dof of an own cell has a lower number than all dofs of the process that no own cell up to this one has |
| Sequential.LocalStarts | src/fem/dofhandler.cc:475-484 | padded prefix sums of the own rows |
| Sequential.LocalDofs | src/fem/dofhandler.cc:486-492 | own dof numbers at the starts of their rows |
| Sequential.ReducedIsStart | src/fem/dofhandler.cc:475-503 | the sum over processes of padded prefix sums is the prefix sum of all rows |
| Sequential.GatheredIsFlat | src/fem/dofhandler.cc:486-512 | joining in rank order flattens all rows |
| Sequential.RowsReadBack | src/fem/dofhandler.cc:475-512 | every row reads back what its owner contributed |
| Sequential.SequentialIsParallel | src/fem/dofhandler.cc:441-553 | for every cell, on every process, the sequential list equals the owner's list |
| Sequential.SequentialIsGlobal | src/fem/dofhandler.cc:441-553 | and it consists of the global numbers of the cell's slots |
| SequentialSession.RowsAreCells | src/fem/dofhandler.cc:467-484 | the rows of all processes are the cells of the mesh, each once |
| SequentialSession.ReduceAndGather | src/fem/dofhandler.cc:475-512 | the loops of all processes, summed and joined, give the reduced starts and the gathered numbers |
| SequentialSession.CreateSequential | src/fem/dofhandler.cc:441-512 | from the tables that distribute_dofs leaves, the sequential tables give for every cell the global numbers of its dofs |
| DofSharing.SharedEntries | src/fem/dofhandler.cc:441-512 | two entries of the sequential lists of any two cells are equal exactly if the dofs are one |
| Component.SameComponent | src/fem/dofhandler.cc:754-770 | dofs with the same ordinal on faces of the same kind belong to the same component |
| Component.SlotComponent | src/fem/dofhandler.cc:754-770 | all cells agree on which slots belong to a component |
| Component.PartOfSystem | src/fem/dofhandler.cc:754-770 | the dofs of a component stand in the system in order, after those of the components before it |
| SubExchange.GetProc | src/la/distribution.cc:130-140 | the process whose range holds the number, if any |
| SubExchange.SubNumberInjective | src/fem/dofhandler.cc:774-819 | different dofs of the component have different sub-numbers |
| SubExchange.SubNumbersTile | src/fem/dofhandler.cc:774-819 | owned sub-numbers tile the interval of the component's dofs |
| SubExchange.CollectRequest | src/fem/dofhandler.cc:841-845 | the request lists exactly the ghost dofs that the neighbour owns, in order |
| SubExchange.UpdateGhosts | src/fem/dofhandler.cc:856-860 | exactly those entries take the received numbers |
| SubExchange.RequestFound | src/fem/dofhandler.cc:874-877 | the owner's map lookup never misses |
| SubExchange.StepKeepsInv | src/fem/dofhandler.cc:839-879 | every message of the sub-handler exchange keeps its invariant |
| SubExchange.SubRunsComplete | src/fem/dofhandler.cc:821-835 | every run of the sub-handler exchange is bounded and ends finished |
| SubExchange.SubCompleteFrom | src/fem/dofhandler.cc:821-835 | every run of it can be continued to a complete one |
| SubExchange.GhostNumberRight | src/fem/dofhandler.cc:821-879 | a ghost entry holds the owner's sub-number if the owner is a neighbour, otherwise the parent's number |
| SubHandler.ParentIndicesOk | src/fem/dofhandler.cc:774-810 | each visited dof is listed once, owned ones first |
| SubHandler.SubNumbering.NumberOwned | src/fem/dofhandler.cc:774-793 | owned dofs are numbered by first visit; the map has exactly their parent numbers and gives their positions |
| SubHandler.SubNumbering.NumberGhosts | src/fem/dofhandler.cc:794-810 | ghost dofs follow with the parent's numbers, and every dof index points to its parent dof |
| SubHandler.SubNumbering.ShiftOwned | src/fem/dofhandler.cc:816-819 | owned numbers are shifted by the offset, ghost entries stay |
| SubHandler.SubNumbering.AnswerSub | src/fem/dofhandler.cc:874-877 | the answer is local index plus offset for each requested dof |
| SubHandler.UpdateSubvector | src/fem/dofhandler.cc:882-889 | the sub-vector takes the parent's entries of the component |
| SubHandler.UpdateParentVector | src/fem/dofhandler.cc:892-899 | the component's entries take the sub-vector's values, all others stay |
| SubHandler.VectorRoundTrip | src/fem/dofhandler.cc:882-899 | writing to the parent and reading back returns the sub-vector |
| SubDistribute.SubLayoutOk | src/fem/dofhandler.cc:729-836 | the construction meets the conditions of the sub-handler exchange |
| SubSession.Construct | src/fem/dofhandler.cc:774-819 | the tables built on a process are its part of the layout: owned dofs have their sub-numbers, the map finds exactly them, ghost dofs have the parent numbers |
| SubSession.Answer | src/fem/dofhandler.cc:864-879 | the answer from the map is that of the exchange model |
| SubSession.TakeAnswer | src/fem/dofhandler.cc:839-861 | entering an answer gives the ghost numbers of the exchange model and keeps the owned ones |
| SubRuns.PassMessage | src/fem/dofhandler.cc:821-879 | after any message the tables of all processes stand for the next state of the exchange model |
| SubRuns.RunHasSchedule | src/fem/dofhandler.cc:821-835 | every run is a list of messages |
| SubRuns.FollowRun | src/fem/dofhandler.cc:821-835 | the tables follow every run |
| SubRuns.TablesAfter | src/fem/dofhandler.cc:774-879 | after a complete run an entry of the local-to-global table is the sub-number of its dof exactly if the dof is owned, or its owner is a neighbour, or the numbers coincide |
| SubCreate.ComponentDofs | src/fem/dofhandler.cc:754-770 | the dofs of the component in the elements of every dimension |
| SubCreate.ReadVisits | src/fem/dofhandler.cc:780-810 | the loops over cells and dofs visit the positions of the component's slots in order |
| SubCreate.ReadParent | src/fem/dofhandler.cc:780-810 | the visits and numbers of all processes are those of the parent's tables after its exchange |
| SubCreate.CreateSub | src/fem/dofhandler.cc:729-836 | the sub-handler of any component, from the parent's tables, follows any run of its exchange |
| SubMesh.ParentOfOk | src/fem/dofhandler.cc:729-836 | after the parent's exchange the hypotheses hold for every component of every mesh |
| SubMesh.CompleteReady | src/fem/dofhandler.cc:409-432 | a completed parent run leaves all processes ready for the sub-handler |
| SubMesh.SubHandlerNumbers | src/fem/dofhandler.cc:729-879 | a ghost entry equals its owner's sub-number if and only if the owner is a ghost neighbour or the two numbers coincide |
| SubMesh.ComponentRow | src/fem/dofhandler.cc:754-770 | the row of a component on a cell holds exactly the dofs of that component's element, those after all dofs of the components before it |
| SubChain.ChainOwnerNotNeighbour | src/fem/dofhandler.cc:839-861 | three cells in a row on three processes have a ghost dof whose owner is no neighbour |
| SubChain.ChainGhostNumberWrong | src/fem/dofhandler.cc:729-879 | there every complete run ends with parent number 3 for a dof with sub-number 1, and 3 is also the sub-number of an own dof of the process |
| SubChain.ChainRun | src/fem/dofhandler.cc:729-879 | such runs exist |
| Monomials.AllSound | src/fem/fe_p.cc:37-58 | every listed tuple has the right length and a sum within the degree |
| Monomials.AllComplete | src/fem/fe_p.cc:37-58 | every such tuple is listed |
| Monomials.AllAscending | src/fem/fe_p.cc:37-58 | strictly increasing reverse-lexicographic order |
| Monomials.AllCount | src/fem/fe_p.cc:37-58 | C(degree + dim, dim) tuples |
| Monomials.CarryIsNext | src/fem/fe_p.cc:46-57 | the increment goes from each tuple to the next and stops at the last |
| Monomials.Increment | src/fem/fe_p.cc:46-57 | the inner loop computes the increment and keeps the degree sum |
| Monomials.Powers | src/fem/fe_p.cc:37-58 | the constructor's loop ends and gives the whole list in order |
| Monomials.NextPoint | src/fem/fe_p.cc:134-154 | a step of the barycentric loop is the increment on the coordinates after the first |
| Monomials.SupportPoints | src/fem/fe_p.cc:129-156 | the support points are the exponents completed by coordinate 0, in the same order |
| ShapeFunctions.EvaluateDof | src/fem/finite_element.cc:34-65 | the coefficients times the components of the basis function, at the point whose coordinates are the barycentric ones after the first |
| ShapeFunctions.DofMatrix | src/fem/finite_element.cc:98-108 | column i holds dof i of all basis functions |
| ShapeFunctions.ShapeValueLoop | src/fem/finite_element.cc:112-124 | the linear combination of basis functions by row i of the node matrix |
| ShapeFunctions.Duality | src/fem/finite_element.cc:98-124 | dof k of shape function i is 1 if i = k, otherwise 0 |
| ShapeFunctions.Interpolation | src/fem/finite_element.cc:98-124 | interpolation by the dofs reproduces every basis function at every point |
| ShapeFunctions.BasisValue | src/fem/fe_p.cc:62-75 | the product of powers |
| ShapeFunctions.InitDofs | src/fem/fe_p.cc:111-191 | one point value per basis function, at the lattice point of its exponents; for degree or dimension 0 at the point whose barycentric coordinates are equal and sum to 1 |
| ShapeFunctions.PartitionOfUnity | src/fem/fe_p.cc:62-191 | the shape functions of every degree and dimension sum to 1 at every point |
| Lagrange.KroneckerAtNodes | src/fem/finite_element.cc:34-124 | for every degree and dimension from 1 on, shape function i is 1 at the point of exponents i over the degree and 0 at the points of all others |
| Lagrange.SetUp | src/fem/fe_p.cc:111-191 | so it is for the dofs that init_dofs sets up and any inverse of their matrix; for degree or dimension 0 the only shape function is the constant 1 |
| Lagrange.MonomialRaised | src/fem/fe_p.cc:62-75 | raising one exponent multiplies a monomial by that coordinate |
| Lagrange.Reproduction | src/fem/finite_element.cc:98-124 | the shape functions with the values of any monomial of the degree at the nodes give that monomial at every point |
| Lagrange.CoordinatesReproduced | src/fem/fe_p.cc:62-191 | the shape functions with the coordinates of their nodes give back the point |
| Gradients.MonomialMoved | src/fem/fe_p.cc:62-99 | moving the point by h in a direction adds to a monomial h times a polynomial slope |
| Gradients.MonomialSlopeAtZero | src/fem/fe_p.cc:78-99 | the slope at h = 0 is the gradient that the source computes |
| Gradients.BasisGrad | src/fem/fe_p.cc:78-99 | the loops compute every component of the gradient |
| Gradients.ShapeGradLoop | src/fem/finite_element.cc:126-142 | the linear combination of basis gradients by row i of the node matrix |
| Gradients.ShapeMoved | src/fem/finite_element.cc:112-142 | moving the point by h adds to a shape function h times its slope |
| Gradients.ShapeSlopeAtZero | src/fem/finite_element.cc:112-142 | and the slope at h = 0 is shape_grad: it is the derivative of shape_value |
| Gradients.GradInterpolation | src/fem/finite_element.cc:98-142 | interpolation by the dofs reproduces the gradient of every basis function at every point |
| Gradients.GradientsSumToZero | src/fem/fe_p.cc:78-191 | the gradients of the shape functions of every degree and dimension sum to zero at every point |
| ElementSystem.BuildIndices | src/fem/fe_system.cc:48-64 | for each basis function of the system: element, basis function there, first component |
| ElementSystem.BasisInBlock | src/fem/fe_system.cc:67-80 | a basis function of the system is one of an element on its components and 0 elsewhere |
| ElementSystem.SystemDofs | src/fem/fe_system.cc:174-186 | dofs with their coefficients moved to the components of their element |
| ElementSystem.SystemNodeMatrix | src/fem/fe_system.cc:246-263 | block diagonal with the node matrices of the elements |
| ElementSystem.FeDofs | src/fem/fe_system.cc:267-279 | the consecutive indices of the dofs of an element |
| ElementSystem.SystemShape | src/fem/fe_system.cc:48-263 | shape function (f, n) is shape function n of element f on its components and 0 elsewhere |
| ElementSystem.SystemInverse | src/fem/fe_system.cc:246-263 | the block-diagonal matrix is the inverse of the dof matrix of the whole system |
| ElementSystem.SystemDuality | src/fem/fe_system.cc:140-263 | so the shape functions of the system are dual to its dofs |
| FeValues.SystemSpaceComponents | src/fem/finite_element.cc:178-203 | the number of components is the number of scalars, plus the dimension times the number of vectors of all three kinds, plus its square times the number of tensors, and it is the sum over the elements |
| FeValues.StartByKinds | src/fem/fe_system.cc:138-168 | so is the number of components before each element |
| FeValues.SubPoint | src/fem/fe_values.cc:50-62 | the extracted values are the element's dofs and components |
| FeValues.FillSubRow | src/fem/fe_values.cc:310-452 | the row of an element holds its mapped values one after the other, for any map |
| FeValues.GatherElement | src/fem/fe_values.cc:482-485 | exactly the components of the functions of one element are written |
| FeValues.GatherAll | src/fem/fe_values.cc:473-490 | every function gets the values of its element on its components, all other slots stay |
| FeValues.InitFeData | src/fem/fe_values.cc:232-248 | reference values are those of the shape functions |
| FeValues.SystemValues.FillSystemData | src/fem/fe_values.cc:458-490 | on each point, own components hold the mapped reference values and all others are 0 |
| FeValues.SystemValues.ShapeValueComponent | src/fem/fe_values.cc:286-294 | the function belongs to one element f, and the value read is its mapped reference value on the components of f, zero on all others |
| FeValues.SystemValue | src/fem/fe_values.cc:232-490 | the value read for (f, n) and a component is the mapped shape function n of element f there, 0 elsewhere, for any maps |
| FeMaps.FillData | src/fem/fe_values.cc:310-490 | the tables are filled with the map of the kind of each element |
| FeMaps.MappedByRows | src/fem/fe_values.cc:329-415 | a contravariant or Piola vector has one component per row of the Jacobian: that row times the reference vector, over the determinant for the Piola kind |
| FeMaps.MappedUnchanged | src/fem/fe_values.cc:310-437 | a scalar, a vector with one entry per dimension and a tensor with one per pair of dimensions are unchanged |
| FeMaps.MappedIsSpaceValue | src/fem/fe_values.cc:310-437 | scalar, vector and tensor values are those of the shape function, contravariant ones the Jacobian times it, Piola ones that over the determinant |
| FeMaps.SystemSpaceValue | src/fem/fe_values.cc:232-490 | so is the value that the flat tables of a compound element give for each of its shape functions and components |
| CacheRegions.FlatDistinct | src/fields/field_value_cache.cc:97-117 | no element is laid out twice, whatever the order of regions |
| CacheRegions.FlatSize | src/fields/field_value_cache.cc:97-117 | as many positions as elements added |
| CachePoints.RankInjective | src/fields/field_value_cache.cc:120-139 | different marked points have different numbers |
| CachePoints.RankSurjective | src/fields/field_value_cache.cc:120-139 | every number below the count is that of a marked point |
| CachePoints.CountBound | src/fields/field_value_cache.cc:40-46 | the count never exceeds the allocated size |
| CachePoints.NumberRow | src/fields/field_value_cache.cc:127-132 | marked points of a row get the next numbers, others stay |
| CacheMap.PlacedInverse | src/fields/field_value_cache.cc:97-117 | positions and elements are inverse to each other |
| CacheMap.LayOutElements | src/fields/field_value_cache.cc:103-116 | the layout holds exactly the added elements, grouped by regions, with exact ranges |
| CacheMap.NumberPoints | src/fields/field_value_cache.cc:120-139 | points are numbered row by row, value ranges are exact, and the overrun happens exactly if the twenty ranges count 1 to 20 |
| CacheMap.OverrunIff | src/fields/field_value_cache.cc:133-137 | the overrun happens exactly if all regions have one element and the entries left from earlier rounds continue the count |
| CacheMap.RegionOfPoint | src/fields/field_value_cache.cc:120-139 | the number of a marked point lies in the value range of its region |
| CacheMap.PointOfRegion | src/fields/field_value_cache.cc:120-139 | each number in that range is that of a point of the region |
| CacheMap.ElementCacheMap.StartElementsUpdate | src/fields/field_value_cache.cc:142-145 | the counter is zero and the cache collects, also after a round that was not finished, whose elements stay in the region lists |
| CacheMap.ElementCacheMap.Add | src/fields/field_value_cache.cc:83-94 | the element is added once to its region; refused exactly if the counter is at twenty |
| CacheMap.ElementCacheMap.PrepareElementsToUpdate | src/fields/field_value_cache.cc:97-117 | laid out for any order of the regions, all points unused, later ranges untouched; written past the end exactly if more than twenty elements were collected |
| CacheMap.ElementCacheMap.MarkUsedEvalPoints | src/fields/field_value_cache.cc:153-158 | exactly the given points are marked; the positions stay inverse exactly if the element was added |
| CacheMap.ElementCacheMap.CreateElementsPointsMap | src/fields/field_value_cache.cc:120-139 | marked points hold their numbers and each region its value range |
| CacheMap.ElementCacheMap.FinishElementsUpdate | src/fields/field_value_cache.cc:147-151 | ready to read, region tables empty |
| CacheMap.ElementCacheMap.CacheIndex | src/fields/field_value_cache.cc:186-193 | the position of a cached element, the undefined index for any other |
| CacheExamples.MarkMissing | src/fields/field_value_cache.cc:153-158 | an element that was not added is found at position 0, which holds another one |
| CacheExamples.TwentyRegions | src/fields/field_value_cache.cc:120-139 | twenty single regions read past the end, and so do nineteen in the next round, but not on their own |
| CacheExamples.Restart | src/fields/field_value_cache.cc:83-145 | after any start and additions the lists hold the leftovers and as many elements as the counter says; they fit exactly if that is at most twenty |
| CacheExamples.RestartOverfills | src/fields/field_value_cache.cc:83-145 | after a start without finish twenty more elements are accepted, twenty-one are in the lists, and they do not fit |
| FieldCache.ModelCacheItemIs | src/fields/field_model.hh:61-83 | collecting arguments from the last input to the first applies the function to all inputs in order |
| FieldCache.UpdateRegion | src/fields/field_constant.cc:147-157 | exactly the range of the region is overwritten with its values |
| FieldCache.CacheUpdate | src/fields/field.impl.hh:740-748 | all regions hold their values, in whatever order they are visited |
| FieldCache.UpdateField | src/fields/field.impl.hh:740-748 | every marked point of every cached element holds the direct value on its region |
| FieldCache.GetValue | src/fields/field_value_cache.impl.hh:28-38 | a value exactly for marked points of cached elements, the one at their number |
| FieldSet.UpdatedIsDirect | src/fields/field_set.hh:250-252 | if every computed field stands after its inputs, what the update in the order of the set gives is the direct value, computed through all inputs |
| FieldSet.UpdateAll | src/fields/field_set.hh:250-252 | in any order each field gets the values of its inputs as they stand: new before it in the set, old after it |
| FieldSet.Round | src/fields/field_value_cache.cc:83-193 | after a full round every marked point of every added element reads, in every field of the set, as its direct value; with at most twenty additions it cannot fail |
| FieldSet.ReversedIsStale | src/fields/field_set.hh:250-252 | a computed field placed before its input reads the value of the round before |
| TimeLimits.ApartSeparates | src/tools/time_governor.cc:230-234 | no time equals two sufficiently distant records up to tolerance |
| TimeLimits.GtIs | src/tools/time_governor.cc:230-234 | for times that are not negative: after means later by more than 2^-48 times one plus the later time |
| TimeLimits.ClearIsAfter | src/tools/time_governor.cc:230-234 | later by more than 4e-15 times one plus the time is after |
| TimeLimits.CloseIsEqual | src/tools/time_governor.cc:230-234 | later by at most 3e-15 times one plus the time is not |
| FieldHistory.CheckInput | src/fields/field.impl.hh:592-618 | accepted exactly if times are not negative and never decrease |
| FieldHistory.EnterKeepsRing | src/fields/field.impl.hh:487-498 | a later record keeps the ring the last records, at most three |
| FieldHistory.RewriteIff | src/fields/field.impl.hh:483-498 | a record with the newest time overwrites it exactly if it is the only one |
| FieldHistory.RewriteKeepsBoth | src/fields/field.impl.hh:483-498 | with an older record in the ring both records of the same time are kept |
| FieldHistory.UpdateHistory | src/fields/field.impl.hh:439-507 | exactly the records up to the time are entered, in order, also with equal times |
| FieldHistory.CheckInitialized | src/fields/field.impl.hh:510-562 | missing regions get the default at time 0; fails exactly if one is missing and there is none |
| FieldHistory.SelectFields | src/fields/field.impl.hh:298-340 | each region gets the record chosen for the time and side; the jump flag is exact, and the change flag tells of exchanged algorithms and of algorithms that answer that they changed |
| FieldHistory.RightLimit | src/fields/field.impl.hh:310-328 | the right limit is the last record up to the time |
| FieldHistory.LeftLimit | src/fields/field.impl.hh:310-328 | the left limit is the only record, or the last before the time exactly if the second newest is before it |
| FieldHistory.LeftLimitTooClose | src/fields/field.impl.hh:310-328 | with two records within the tolerance the left limit is the one that is not before the time |
| FieldHistory.LeftLimitApart | src/fields/field.impl.hh:310-328 | and it is so if the last two records are farther apart than twice the tolerance |
| FieldHistory.RingRefinesList | src/fields/field.impl.hh:201-343 | the choice from the ring equals the choice from the full list of records known at the time |
| FieldHistory.ReadIsSet | src/fields/field.impl.hh:439-562 | if the times of each region ascend, the rings read are the last three of all its records, after the default where one was entered |
| FieldHistory.Field.SetTime | src/fields/field.impl.hh:269-343 | for any accepted input, after every call, skipped or not, the rings hold exactly the records up to the time, the fields in force are those chosen for time and side, and the change flag is exact; fails exactly without record and default at the first time |
| FieldHistory.SetTimes | src/fields/field.impl.hh:269-343 | after any run of times that never decrease the field is at the last of them |
| FieldHistory.RightLimitInForce | src/fields/field.impl.hh:269-343 | if the times of each region ascend, the field in force is the last record up to the time |
| FieldHistory.LeftLimitInForce | src/fields/field.impl.hh:269-343 | if the times of each region ascend, the field in force is the left limit, with the exact condition |
| FieldLimits.RightInForce | src/fields/field.impl.hh:269-343 | if no item of the region is within 4e-15 (relative to one plus the later time) of the time without being at it, the algorithm in force is that of the last item up to the time, and the default if there is none |
| FieldLimits.LeftInForce | src/fields/field.impl.hh:269-343 | on the left side it is that of the last item before the time; if there is none, the default where it was entered, otherwise the item at the time |
| FieldLimits.JumpIs | src/fields/field.impl.hh:298-340 | under the same hypothesis the time is a jump exactly if some region has an item there, or its default at time 0 |
| FieldLimits.SufficesIs | src/fields/field.impl.hh:510-562 | the condition of the first time: a default, or an item for each region where the field matters |
| BalanceSums.SumSources | src/coupling/balance.cc:553-580 | the source rate of a process: over all rows, the sum of the multipliers times the solution, plus all constant parts |
| BalanceSums.SplitSources | src/coupling/balance.cc:636-669 | into a region comes the sum of the positive values (multiplier times solution plus constant part) there, and what comes in and goes out is together the sum of all of them |
| BalanceSums.PartSign | src/coupling/balance.cc:661-668 | the parts have their signs |
| BalanceSums.SourcesAgree | src/coupling/balance.cc:553-669 | summed over regions the instant sources are the cumulative rate |
| BalanceSums.RateIs | src/coupling/balance.cc:560-570 | the rate by plain sums over multipliers and constant parts |
| BalanceSums.NetIs | src/coupling/balance.cc:655-668 | the same for both parts of a region together |
| BalanceSums.GainsAre | src/coupling/balance.cc:655-668 | the positive part of a region is the sum of its positive values |
| BalanceSums.SplitFluxes | src/coupling/balance.cc:672-700 | incoming and outgoing fluxes by boundary region |
| BalanceSums.FluxesAgree | src/coupling/balance.cc:583-700 | summed over regions the instant fluxes are the negative sum of outgoing ones |
| BalanceSums.FluxPartIs | src/coupling/balance.cc:672-700 | what flows in or out through a region is the negative sum of its negative or positive fluxes |
| BalanceSums.FluxSumIs | src/coupling/balance.cc:583-600 | the outgoing flux is the sum over the boundary edges |
| BalanceBuffer.Pack | src/coupling/balance.cc:716-734 | every table row stands in its own part of the buffer |
| BalanceBuffer.Unpack | src/coupling/balance.cc:740-763 | the tables read are those packed in the buffer |
| BalanceBuffer.Reduce | src/coupling/balance.cc:736 | each entry is the sum over processes |
| BalanceBuffer.UnpackedIsSum | src/coupling/balance.cc:712-765 | unpacked entries are the sums of the packed ones, entry by entry |
| BalanceBuffer.Gather | src/coupling/balance.cc:712-765 | pack, reduce and unpack together sum all tables and increments |
| BalanceRuns.StepConserves | src/coupling/balance.cc:535-846 | one event moves pending amounts to integrals or adds its own contribution, nothing else |
| BalanceRuns.Conservation | src/coupling/balance.cc:535-846 | over any interleaving on any number of processes, integrated plus pending equals everything contributed |
| BalanceRuns.OutputSettles | src/coupling/balance.cc:800-846 | right after an output the integrals are everything contributed |
| BalanceRuns.CsvErrorIs | src/coupling/balance.cc:1060 | the error is the defect of the mass since the first output |
| BalanceRuns.CsvErrorExact | src/coupling/balance.cc:800-818 | for a conserving run the error is minus what was contributed before the first output |
| BalanceRuns.CsvErrorZero | src/coupling/balance.cc:1060 | with the first output at time level 0 the error is zero at every output |
| BalanceRuns.LateOutputHasError | src/coupling/balance.cc:800-818 | a conserving run with a late first output and error -1 |
| BalanceRuns.LegacyErrorExact | src/coupling/balance.cc:974-987 | for a conserving run the legacy error is what was contributed before the first output less twice the integrated flux, zero exactly if these are equal |
| BalanceRuns.InflowHasLegacyError | src/coupling/balance.cc:974-987 | a conserving run whose CSV error is 0 and whose legacy error is -2 |
| Balance.OutputRates | src/coupling/balance.cc:629-795 | the sums that process 0 writes are the rates that were accumulated |
| Balance.Ledger.AddCumulativeSource | src/coupling/balance.cc:535-542 | the account of the quantity takes the source on process 0, other quantities stay |
| Balance.Ledger.CalculateCumulative | src/coupling/balance.cc:545-601 | the account takes the rates of all processes and the negative outgoing flux times the step, from time level 1 on |
| Balance.Ledger.CalculateInstant | src/coupling/balance.cc:629-700 | every process holds the split of its sources and fluxes, accounts stay |
| Balance.Ledger.Output | src/coupling/balance.cc:706-846 | tables are summed over processes and kept by process 0, pending amounts integrated and cleared, and the error column is as defined |
| Balance.SecondOutput | src/coupling/balance.cc:746-755 | a second output without new instant values gives the same totals exactly if the other processes hold nothing |
| BalanceCalls.Perform | src/coupling/balance.cc:535-846 | every call does to every account what its event says |
| BalanceCalls.PerformAll | src/coupling/balance.cc:535-846 | after any list of calls on any number of processes every account is the run of the events of its quantity, and the errors written are those of the run |
| BalanceCalls.WrittenError | src/coupling/balance.cc:800-846 | the error written for a conserving quantity is minus what was contributed before its first output |
| BalanceCalls.WriteTwice | src/coupling/balance.cc:706-846 | two outputs in a row write a source of 1 on process 1 as 1 and then as 2 |
| BalanceTotals.EventsBring | src/coupling/balance.cc:535-601 | what the calls of a run contribute to a quantity, by plain sums over steps, processes, rows, multipliers and constant parts, for steps from time level 1 on |
| BalanceTotals.WrittenTotals | src/coupling/balance.cc:800-846 | after an output the integrated sources and fluxes of every quantity are these sums over all calls |
| BalanceTotals.MassIs | src/coupling/balance.cc:604-640 | the mass of a quantity is that of the last call that set it |
| BalanceTotals.StartMassIs | src/coupling/balance.cc:604-640 | and zero before the first |

## Left out

- `n_elem_dofs` (src/fem/discrete_space.hh:97-98, 114-115): not used by the numbering.
- PETSc vectors, matrices, scatters and MPI are sequences, sums and rendezvous messages.
- ShapeFunctions.InitDofs: does not model the dimension and n-face index of a Lagrange dof, which need tables of the reference element.
- FeValues.SubPoint: does not model the columns of the reference gradients extracted beside the values; the same index arithmetic once more.
- FeValues.InitFeData: does not model the reference gradients filled beside the values; `Gradients` models what they are.
- FeValues.FillSubRow: takes the map of the element as a parameter, so that one loop stands for five; `FeMaps` gives the maps of the kinds.
- FeMaps.FillData: does not model the gradients filled beside the values.
- FeValues.SystemValues.FillSystemData: does not model gradients; the maps are parameters, given by `FeMaps.FillData`.
- FeValues.SystemValue: the maps are parameters, given by `FeMaps.SystemSpaceValue`.
- Degenerate cells, whose Jacobian has determinant zero; views, side quadratures and permutations.
- `nonzero_components_` and `dof_points` of a compound element: would only add easy members.
- `FieldFE`, `FieldFormula`, `FieldPython` and multi-fields; `set_field` from code; copies of a field that share a history.
- FieldHistory.CheckInitialized: does not model the control field that exempts a region without records from the check.
- Records with equal times on one region: `FieldHistory.Field.SetTime` covers them, the theorems on limits exclude them, see `FieldHistory.RewriteIff`.
- Region sets in `Balance::output` are taken to list every region index once.
- Assembly of balance matrices, the enumeration of boundary edges, and text formats of the output except the error columns; `is_current` and a balance switched off, which skip the calls.
- FieldSet.Round: states nothing when the additions are refused, because the source stops with an error there.
- Coupled solvers, time governor, mesh readers and input: not part of this model.
