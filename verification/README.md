# arduino-cli `board list`: aggregation, comparators and table rows

A Dafny model of the data-shaping core of the `board list` command of
arduino-cli (`cli/board/list.go`). The command builds a registry of
discoveries, merges the builtin `serial` discovery into it, asks each
discovery for its ports, and identifies the boards on each port. It collects
one `detectedPort` per listed port and, for terminal output, sorts the ports
and boards and lays them out as table rows. The model covers three parts:

- **Registry and aggregation** (`registry.dfy`, `aggregation.dfy`). The builtin
  discovery overrides any declared `serial` entry. The loop over the registry
  is a fold over a sequence of `Listing`s. Each `Listing` holds a discovery's
  name, the discovery itself and the `Result` of its `List()` call. Go leaves
  the iteration order of a map unspecified. So the listings may come in any
  order that visits every registry entry exactly once (`Enumerates`). The
  board catalog lookup `pm.IdentifyBoard` is a function parameter
  (`Identify`) that the model does not interpret.
- **Comparators** (`comparators.dfy`, using `strings.dfy` and `orders.dfy`).
  `detectedBoards.Less` and `detectedPorts.Less` are modelled exactly as
  written. Each tests its second key even when the first key is greater.
  The lemmas prove both comparators irreflexive, and exhibit pairs of
  elements that are each less than the other. So neither comparator is a
  strict weak order. Go's `<` on strings is `Strings.Less`, which compares
  strings lexicographically and is proved to be a strict total order.
- **Table rows** (`table.dfy`). `EmitTerminal` produces a sequence of
  `Row(port, kind, boardName, fqbn)` values, one per table line. Rendered text
  is not modelled. The comparators are not strict weak orders, so `sort.Slice`
  promises only a permutation. The model takes the sorted ports as any
  reordering of the ports, with each port's boards in any order
  (`IsSortOutcome`). It never claims the result is sorted.

`seqs.dfy` holds small facts about slices and multisets of sequences. `wrappers.dfy`
holds the `Result` type standing for Go's `(value, error)` returns.

Two facts about the code shape the model:

- The code starts, lists and defers the close of each discovery one after
  the other (cli/board/list.go:93-98). Nothing concurrent is modelled.
- `sort.Slice` is not stable, and the comparators are not strict weak orders
  (cli/board/list.go:144-163, 166, 176). So the sort outcome is an arbitrary
  permutation. The model keeps the comparators as written and never assumes
  an order for the sorted result.

## Model

| member | source | states |
|---|---|---|
| Registry.Merge | cli/board/list.go:89-90 | after the merge the key set is the declared keys plus "serial", "serial" maps to the builtin discovery, and every other declared key keeps its discovery |
| Registry.MergeIgnoresDeclaredSerial | cli/board/list.go:89-90 | a platform-declared "serial" discovery has no effect: two declared registries that agree off "serial" merge to the same registry |
| Aggregation.BuiltinSerialQueriedOnce | cli/board/list.go:89-93 | iterating the merged registry queries the builtin discovery under "serial" exactly once, and every other queried discovery is the one its platform declared |
| Aggregation.DetectBoards | cli/board/list.go:104-110 | the boards of a detected port are the identification results, in the same order and with the same count, each reduced to its name and FQBN |
| Aggregation.Detect | cli/board/list.go:104-117 | a detected port copies the listed port's address, protocol and label, and carries one board per catalog match, in the catalog's order, with the match's name and FQBN |
| Aggregation.Contribution | cli/board/list.go:98-118 | a discovery whose listing failed adds no ports; otherwise it adds one detected port per listed port, in order, copying address, protocol and label and carrying one board per catalog match |
| Aggregation.Aggregate | cli/board/list.go:92-119 | the collected ports number exactly the ports listed by the discoveries whose listing did not fail |
| Aggregation.AggregateAppend | cli/board/list.go:93-119 | results are appended in discovery order: collecting over two runs of listings is the concatenation of collecting over each |
| Aggregation.FailedListingIsSkipped | cli/board/list.go:98-102 | a discovery whose listing failed contributes nothing, and the other discoveries' contributions are unchanged |
| Aggregation.AggregateBlock | cli/board/list.go:103-118 | listing i fills one contiguous block of the result, in listing order, holding exactly its detected ports, or nothing if it failed |
| Aggregation.DetectedAt | cli/board/list.go:103-118 | port j of a successful listing i sits at offset j of that listing's block in the result, and is exactly the detected port built from it |
| Aggregation.ListedPortIsDetected | cli/board/list.go:103-118 | port j of a successful listing i becomes the detected port at offset j of that listing's block, with address, protocol and label copied and boards as identified |
| Aggregation.CollectBoards | cli/board/list.go:104-110 | the innermost loop builds exactly the identified boards as detected boards |
| Aggregation.DetectListedPorts | cli/board/list.go:103-118 | the loop over one discovery's ports builds one detected port per listed port, in order |
| Aggregation.CollectDetectedPorts | cli/board/list.go:92-119 | the loop over the registry, as written, computes the aggregate of the listings |
| Strings.LessIrreflexive | cli/board/list.go:147 | Go's `<` on strings never holds between a string and itself |
| Strings.LessAsymmetric | cli/board/list.go:150 | Go's `<` on strings never holds in both directions |
| Strings.LessTransitive | cli/board/list.go:156 | Go's `<` on strings is transitive |
| Strings.LessTrichotomous | cli/board/list.go:159 | any two different strings are ordered by Go's `<` one way or the other |
| Comparators.BoardLessIrreflexive | cli/board/list.go:144-151 | `detectedBoards.Less` never orders a board before itself |
| Comparators.PortLessIrreflexive | cli/board/list.go:153-163 | `detectedPorts.Less` never orders a port before itself |
| Comparators.BoardLessVersusLexicographic | cli/board/list.go:144-151 | the board comparator holds exactly when the (name, FQBN) lexicographic order does, or when the name is greater and the FQBN smaller |
| Comparators.PortLessVersusLexicographic | cli/board/list.go:153-163 | the port comparator holds exactly when the (protocol, address) lexicographic order does, in particular whenever the protocol is smaller, or when the protocol is greater and the address smaller |
| Comparators.BoardLessBothWays | cli/board/list.go:144-151 | two boards are each less than the other exactly when their names and FQBNs are ordered in opposite directions |
| Comparators.PortLessBothWays | cli/board/list.go:153-163 | two ports are each less than the other exactly when their protocols and addresses are ordered in opposite directions |
| Comparators.BoardLessIsNotStrictWeakOrder | cli/board/list.go:144-151 | the board comparator is irreflexive, {a, z} and {b, a} are each less than the other, and the comparator is not a strict weak order |
| Comparators.PortLessIsNotStrictWeakOrder | cli/board/list.go:153-163 | the port comparator is irreflexive, a port pair with protocol and address in opposite orders is less both ways, and the comparator is not a strict weak order |
| Comparators.SomePortsHaveNoSortedOrder | cli/board/list.go:153-166 | some two ports have no order that is sorted by the port comparator, so no sorted result can be promised |
| Table.DisplayAddress | cli/board/list.go:170-173 | a serial port shows its bare address; any other port shows the protocol, then "://", then the address |
| Table.DisplayAddressInjective | cli/board/list.go:170-173 | two ports of the same protocol show the same address exactly when their addresses are equal |
| Table.BoardRows | cli/board/list.go:177-184 | one row per board, in order, with name and FQBN; the address and protocol label appear on the first row only and every later row has "" in both columns |
| Table.PortRows | cli/board/list.go:174-189 | a port takes one row per board, or a single row when it has no boards |
| Table.PortRowsShape | cli/board/list.go:174-189 | a port without boards yields exactly the row (address, label, "Unknown", ""); a port with k boards yields k rows carrying board i's name and FQBN, with address and label on row 0 only |
| Table.EveryBoardHasARow | cli/board/list.go:175-184 | every candidate board of a port has a row carrying its name and FQBN |
| Table.IsSortOutcome | cli/board/list.go:166-176 | what the two sorts may leave: the same ports, each with the same boards, in any order; such an outcome has as many ports as the input, and any plain reordering of the ports qualifies |
| Table.KeysOfPermutation | cli/board/list.go:166 | reordering the ports, without touching their boards, keeps the multiset of ports-with-their-boards |
| Table.RowTotalPermutation | cli/board/list.go:166-176 | reordering the ports, and the boards within each port, does not change the total number of rows |
| Table.Rows | cli/board/list.go:169-190 | the table has as many rows as the sum over the ports of max(1, number of boards) |
| Table.RowsBlock | cli/board/list.go:169-190 | each port's rows form one contiguous block, and the blocks follow the port order |
| Table.RowOfPort | cli/board/list.go:169-190 | row j of the port at position k is row j of the whole table after the rows of the ports before it |
| Table.EveryPortHasARow | cli/board/list.go:165-190 | whatever order the sorts chose, every detected port has a row showing its display address and protocol label |
| Table.EveryBoardIsShown | cli/board/list.go:165-190 | whatever order the sorts chose, every candidate board of every detected port has a row with its name and FQBN |
| Table.EmitPort | cli/board/list.go:170-189 | the loop body for one port, as written, produces exactly that port's rows |
| Table.EmitTerminal | cli/board/list.go:165-190 | the table loop, as written, produces the rows of the sorted ports, and their number equals the sum over the original ports of max(1, number of boards) |

## Left out

- Command and flag wiring (cli/board/list.go:34-51): CLI plumbing with no logic of its own.
- Package manager initialisation (cli/board/list.go:55): an external service. Its registry of declared discoveries and its board lookup are parameters of the model.
- Timeout parsing and the exit on a bad timeout (cli/board/list.go:57-61): `time.ParseDuration` is a library call, and `os.Exit` is process control.
- Serial-discovery tool bootstrap (cli/board/list.go:63-86): download, install, hardware reload and construction of the discovery are package-manager and filesystem I/O. The builtin discovery is a parameter of `Registry.Merge`.
- Discovery lifecycle (cli/board/list.go:94-98): setting the timeout, `Start`, the deferred `Close`, and the `List` call itself drive subprocesses. The outcome of each `List` call is an input, `Listing.outcome`.
- The message printed for a failed listing (cli/board/list.go:100): console output. Only its effect, skipping that discovery, is modelled.
- Internals of `pm.IdentifyBoard` (cli/board/list.go:105): the board catalog is an uninterpreted function parameter.
- JSON output and the choice between JSON and table (cli/board/list.go:121-122): foreign serialisation. The data that would be serialised is `Aggregate`'s result.
- Table layout and rendering (cli/board/list.go:167-168, 191): foreign text formatting. The table is a sequence of `Row`s without its header.
- The order `sort.Slice` actually produces (cli/board/list.go:166, 176): with these comparators it depends on the library's implementation. `EmitTerminal` receives the result of both sorts as the input `shown`, constrained only by `IsSortOutcome`.
- Table.EmitTerminal: does not perform the sort; it takes the sorted sequence as an input, because with these comparators only the permutation is determined.
- Byte-level string comparison: Go compares strings byte by byte. The model compares characters, which are Unicode code points, and their order agrees with the byte order of valid UTF-8. Invalid UTF-8 is not modelled.
