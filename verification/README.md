# Verified models of the call-graph toolkit

This project models the parts of the call-graph toolkit whose correctness is hard to see from the
code, and proves what they promise. Code that updates state in the original is imperative Dafny
here: in-place loops over arrays, classes with mutated fields, counters kept in maps. Each such
method is proved against a specification on values, and the promises are proved of that
specification. `dafny verify dfyconfig.toml` checks everything.

**Post-dominance in the Go producer** (`PostDominance`, `GoEdges`, `Dedup`, `Order`). The sweep over
the boolean matrix is proved to compute post-dominance as defined by finite walks to a virtual exit,
with a bound on the number of passes. On top of it: the memo cache, the kind of every edge in both
walks, deduplication, and the sorted output. Every call and every edge of the graph has an output
record with its caller, site and callee, and no two records agree in the three. A function without a
terminal block has an empty answer, as the comment above `alwaysExec` says; `CutOffEntry` adds what
is answered when there is one that the entry does not reach. The same comment says that a
conditional call is demoted to `MAY_TOP`; the code demotes it to `MAY_ENUMERATED`, and so does the
model. Deduplication keeps the first record of a key. The direct walk visits functions in random
order and each function in its own, so the bytes of its output depend on the order of visits exactly
when two functions that offer records of one key first offer different ones. Inside one function the
first call on a line decides in every run: after a conditional call, an unconditional one of the
same callee leaves no MUST record (`LostMustExample`).

**Counted snapshot comparison and its witnesses** (`Counter`, `Rows`, `Comparison`, `Acceptance`,
`NativeEvidence`, `WitnessLoader`, `WitnessDraft`, `Picking`, `PendingRows`, `PendingExact`,
`ChangedGroups`). The comparator accepts exactly by a closed form on multisets, from which
conservation, independence of order and the redundancy of its last three checks follow. `Acceptance`
says in terms of the rows what any witnesses can make it let through, and that it lets all of that
through. The witness loader has a closed form of its own, and a draft prepared from a candidate's
delta accounts for the whole delta and is accepted by that loader exactly when every storage status
is still open. The greedy matching of pending rows is sound. It approves every change that has a
complete accounting, and its approval is independent of the order of the rows, if and only if two
things hold of the applications: those that no row tells apart are over-applied together or not at
all, and a binder with several bounds shares none of them with another binder at the same caller and
site. `GreedyMissesExample` is a change that fails the first: it is refused in one order of its rows
and approved in the other.

**The constraint oracle** (`CfaOracle`). Every snapshot is the least solution of the operations so
far, which is reachability from the seeds along copy constraints, in any interleaving.

**Parsers and a printer** (`JsonSyntax`, `JsonRoundTrip`, `JsonReader`, `JsonMeaning`, `NdJson`,
`RustRecords`, `Sexp`, `SexpRoundTrip`). The strict JSON reader accepts exactly the printings of
documents without repeated keys (sections 2 and 4 to 7 of RFC 8259; its blanks are JavaScript's, a
superset of section 2) and returns the printed value; `JsonMeaning` says without syntax trees which
text is read as which value. The Rust producer's escaper and records are read back by that reader,
line by line. A Dune forest comes back from any layout of its tokens exactly when no atom reads as a
parenthesis where one would count: a quoted parenthesis does, because tokens do not remember their
quotes.

**Evidence publication under faults** (`OriginPackage`, `OriginConsumer`, `Coverage`). Any step may
fail, and any write may leave anything behind. What every run leaves is proved against the
independently written validator, and a run is complete exactly when no fault occurs. When removals
succeed, the directory holds a record that the validator accepts, or neither a record nor a report.

**The never-drop walk of the Rust producer** (`RustWalk`). No call terminator of a walked body is
lost, every known name is walked or anchored, and concrete call chains are covered. The
deduplication key has no kind, so a MUST edge could hide an open one. Open frontiers survive exactly
when no key that has one is led by a MUST edge; all chains of all runs are covered if and only if
every caller that was left open somewhere keeps an open edge. The names that the classifiers give
meet both conditions (`SourceNamesCover`): an open answer names a foreign item or `*TOP*`, and a
MUST answer neither.

**The api-review consumer** (`JsonValue`, `JsonText`, `JsonParsing`, `Splitting`, `ReportContract`,
`ReportPackage`, `ReportMeaning`). Canonical JSON is idempotent, and encodings are equal exactly
when values differ in key order at most. The delta splits both reports. A completed package is its
own baseline and a rerun against it finds nothing new or absent. When a step fails, the package
still passes for a baseline exactly when the report's hash was already taken and a record could be
written: a run that exits 2 can leave one. The API identity `file:function` tells the entries of two
files apart, whatever the functions are called, if and only if neither file name goes on with a
colon after the other.

Text is a sequence of code units, and a unit is any integer.

## Model

| member | source | states |
|---|---|---|
| PostDominance.ExitGraph | callgraph-go/main.go:250-264 | The successor lists with every terminal block flowing to one virtual exit, and whether any block is terminal. |
| PostDominance.FullMatrix | callgraph-go/main.go:267-275 | The starting matrix: every row full, the exit's row holding the exit alone. |
| PostDominance.Recompute | callgraph-go/main.go:279-288 | One row's replacement is the meet of its successors' rows plus the block itself. |
| PostDominance.StepKeepsInvariant | callgraph-go/main.go:278-296 | Rewriting one row in place keeps every row above its own recomputation and above the true post-dominators, and only loses bits. |
| PostDominance.Sweep | callgraph-go/main.go:278-296 | One pass keeps the sweep invariant, never adds a bit, strictly lowers the number of set bits when it reports a change, and leaves a fixpoint when it reports none. |
| PostDominance.FixpointSound | callgraph-go/main.go:276-297 | A bit that survives in a fixpoint names a node on the given finite walk to the exit. |
| PostDominance.FixpointExact | callgraph-go/main.go:265-297 | In a fixpoint that sweeping can reach, bit (i, k) holds exactly when every finite walk from i to the exit passes k. |
| PostDominance.Solve | callgraph-go/main.go:276-297 | The sweeps stop after at most n(n+1)+1 passes, in the exact post-dominance matrix. |
| PostDominance.AlwaysExec | callgraph-go/main.go:239-305 | The result is the set of blocks on every entry-to-exit walk (empty without a terminal block), within the pass bound. |
| PostDominance.AlwaysRunBlocksFormChain | callgraph-go/main.go:298-303 | When the entry can complete, of any two reported blocks one post-dominates the other. |
| PostDominance.PostDominanceAntisymmetric | callgraph-go/main.go:265-266 | Two different blocks that can complete never post-dominate each other, so the chain is strict. |
| PostDominance.PostDominanceTransitive | callgraph-go/main.go:265-266 | Post-dominance is transitive. |
| PostDominance.ReportedBlocksAreReachable | callgraph-go/main.go:298-303 | Every reported block is reachable from the entry if and only if the entry reaches a terminal block, or no block is terminal, or the entry reaches every block. |
| PostDominance.CutOffEntry | callgraph-go/main.go:237-264 | When the entry reaches no terminal block, nothing is reported if no block is terminal, and every block otherwise. |
| PostDominance.CutOffEntryExample | callgraph-go/main.go:237-264 | A function whose entry leads into a spinning block, with a recover block that no block leads to: the recover block is reported as always run. |
| GoEdges.AlwaysExecCache.RunsAlways | callgraph-go/main.go:316-328 | For any earlier queries the memo answers what a fresh analysis would; absent functions and blocks are answered no. |
| GoEdges.EdgeWriter.Emit | callgraph-go/main.go:582-603 | The output is the first record of every key offered so far. |
| GoEdges.WalkCall | callgraph-go/main.go:529-603 | One call instruction offers exactly one record: a top record for dynamic calls, else the resolved one with its kind. |
| GoEdges.WalkCalls | callgraph-go/main.go:525-605 | The direct walk of one function offers one record per call instruction, in order. Every call has an output record with its caller, its site and its callee, `*TOP*` where that is an interface, a function value or a top function. |
| GoEdges.WalkFunctions | callgraph-go/main.go:514-606 | The direct walk offers the records of the functions one after the other, each function's in its own order. Every call has an output record that tells it, every record of the walk tells a call, and no two agree in caller, callee and site. |
| GoEdges.RecordEdge | callgraph-go/main.go:615-668 | The record of a CHA edge: MUST only for a static callee in an always-run block, reclassified to the top anchor last. |
| GoEdges.WalkEdges | callgraph-go/main.go:608-671 | The CHA walk offers one record per edge, in order. Every edge has an output record with its caller, its site and its callee or `*TOP*`, every record of the walk tells an edge, and no two agree in the three. |
| GoEdges.ScanForTopAnchors | callgraph-go/main.go:345-381 | The scan offers, function by function and in order, one top record for every static call to a top function, and nothing else; each of these calls has its record in the output. |
| GoEdges.CallsAreTold | callgraph-go/main.go:525-605 | Written on call and record fields: each call of the direct walk has an output record with its caller, its site and the name of its static callee, or `*TOP*`; each new record is that of a call, kind and file included; no two agree in the three. |
| GoEdges.EdgesAreTold | callgraph-go/main.go:608-671 | The same for the edges of the CHA walk. |
| GoEdges.AnchorsAreTold | callgraph-go/main.go:345-381 | The same for the anchors. |
| GoEdges.OutputMeans | callgraph-go/main.go:113-132 | The bytes split at line feeds into the lines of the records, in order, with nothing after the last. |
| GoEdges.MustEdgeJustified | callgraph-go/main.go:623-643 | A MUST edge of the CHA walk has a static callee that is no top anchor and a block on every entry-to-exit walk of its caller. |
| GoEdges.MustCallJustified | callgraph-go/main.go:566-580 | The same for the direct walk. |
| GoEdges.MustsReachOutput | callgraph-go/main.go:582-601 | Every MUST record that is offered leaves one of its key in the output if and only if no key that has one is led by another kind. |
| GoEdges.MustsReachEveryOutput | callgraph-go/main.go:514-606 | That is so in every run of the direct walk if and only if no function leads with another kind a key for which some function has a MUST record. |
| GoEdges.LostMustExample | callgraph-go/main.go:520-601 | `if c { f() }; f()` on one line: in every run the conditional call's record is output and the MUST record of the other is not. |
| GoEdges.OrderDependentKindExample | callgraph-go/main.go:133-151 | Two wrappers of one method without a position, one with a static call and one through an interface: MUST is output if the first is visited first, MAY_ENUMERATED if the second is. |
| GoEdges.FlushDeterministic | callgraph-go/main.go:113-132 | However the sort treats ties, the bytes written depend only on the multiset of buffered records. |
| GoEdges.RecTotalOrder | callgraph-go/main.go:120-125 | The comparison of the sort is a total order on records. |
| GoEdges.BytesOrderIndependent | callgraph-go/main.go:514-606 | The direct walk visits functions in random order: the bytes of the whole output, function records included, are the same for every order if and only if functions that offer records of one key first offer the same one. |
| GoEdges.ChaBytesOrderIndependent | callgraph-go/main.go:608-675 | However the CHA walk takes the edges of the nodes in turns, each node's in order, and however the scan orders the functions, the bytes are the same if nodes with edges of one key first offer the same record, and functions with anchors of a key that no edge has do too. |
| Dedup.KeptIsFirst | callgraph-go/main.go:645-649 | Deduplication outputs exactly the first record of each key, once. |
| Dedup.NothingDropped | callgraph-go/main.go:645-649 | Every offered record's key is in the output. |
| Dedup.OutputOrderIndependent | callgraph-go/main.go:514-606 | What is kept is the same for every order of the functions exactly when functions that offer records of one key first offer the same one. |
| Dedup.InterleavingLedBy | callgraph-go/main.go:608-671 | However the lists are interleaved, what is kept comes first of its key in its own list. |
| Dedup.SameInTwoRounds | callgraph-go/main.go:608-675 | Two rounds of visits keep the same in every order when the leaders of the first agree, and those of the second on the keys that the first leaves. |
| Dedup.SurvivesExact | callgraph-go/main.go:645-649 | Every offered record of a kind leaves one of its kind under its key if and only if no key with such a record is led by another kind. |
| Dedup.SurvivesInEveryOrderExact | callgraph-go/main.go:514-606 | In every order of the functions, if and only if no function leads with another kind a key for which some function has that kind. |
| Order.StringLeMeans | callgraph-go/main.go:120-125 | The order on strings: one is a prefix of the other, or has the smaller character where they first differ. |
| Order.UnitsLeMeans | scripts/analysis-report-consumer.js:14-14 | The same for code units. |
| Rows.FirstMissing | roster/tezos-call-resolution/comparison.js:9-13 | The first field that is absent or undefined, or none exactly when all are there. |
| Rows.CanonicalRoundTrip | roster/tezos-call-resolution/comparison.js:7-24 | Canonicalising a row's object, with any extra fields, returns the row when it is well formed and the right refusal when not. |
| Rows.CanonicalAgrees | roster/tezos-call-resolution/comparison.js:7-24 | Whatever is accepted is a well-formed row that agrees with the raw object on all ten fields. |
| Rows.CanonicalMeans | roster/tezos-call-resolution/comparison.js:7-24 | An accepted row has the texts of the raw object in its ten fields, kinds and forms by their names. |
| Rows.ValidMeans | roster/tezos-call-resolution/comparison.js:14-22 | A row is valid exactly when the object made of it canonicalises back to it. |
| Counter.Counted | roster/tezos-call-resolution/comparison.js:91-95 | The map counts the list's multiset, its keys listed once each. |
| Counter.Subtract | roster/tezos-call-resolution/comparison.js:96-101 | Both multiset differences of two lists; nothing is in both, and copies stand together. |
| Comparison.ApproveOne | roster/tezos-call-resolution/comparison.js:122-135 | A transition is accepted exactly when it is permitted and both its rows are left, and consumes one of each. |
| Comparison.OneMoreFits | roster/tezos-call-resolution/comparison.js:128-132 | Consuming one by one agrees with the closed form: one more witness fits exactly when the earlier ones do and both sides still hold a copy. |
| Comparison.ApproveTransitions | roster/tezos-call-resolution/comparison.js:121-136 | The loop grants in order each witness whose facts are still left, with one error for every other, so none exactly when all fit. |
| Comparison.ApproveResidual | roster/tezos-call-resolution/comparison.js:138-150 | A residual is accepted exactly when it is permitted, its head has capacity and its row is left. |
| Comparison.ApproveResiduals | roster/tezos-call-resolution/comparison.js:137-151 | The loop charges in order each residual whose head and fact are still left, with one error for every other, so it adds none exactly when all fit. |
| Comparison.Leftovers | roster/tezos-call-resolution/comparison.js:152-155 | An error with its side, row and count is reported for exactly the rows that are unaccounted for. |
| Comparison.Account | roster/tezos-call-resolution/comparison.js:110-155 | No error so far exactly when all witnesses fit and nothing is left on either side; what was approved never exceeds what changed. |
| Comparison.CompareCanonical | roster/tezos-call-resolution/comparison.js:106-170 | The report is ok exactly when every witness is permitted, befores equal the removed multiset, afters plus residuals equal the added one, and no head has more residuals than transitions; the report lists what was granted and charged in order, the losses, the gains and their slices, and its counts are those of the rows. |
| Comparison.CompareSnapshots | roster/tezos-call-resolution/comparison.js:106-170 | On raw rows it throws exactly when some row anywhere is malformed, and otherwise decides the canonical rows. |
| Comparison.AccountedNeedsNoMoreChecks | roster/tezos-call-resolution/comparison.js:156-163 | Once everything is accounted for, no old relation is lost, no added row is MUST, and the gains are exactly the transitions' new relations. |
| Comparison.LastChecks | roster/tezos-call-resolution/comparison.js:158-163 | The last three checks add no error exactly when losses, MUST rows and gains are as required. |
| Comparison.AcceptedConserves | roster/tezos-call-resolution/comparison.js:106-155 | An accepted candidate is the baseline minus befores plus afters plus residuals, it grows by the residuals only, and there are at most as many residuals as transitions. |
| Comparison.AcceptanceIgnoresOrder | roster/tezos-call-resolution/comparison.js:106-155 | Acceptance does not change when rows or witnesses are reordered within their lists. |
| Comparison.NoWitnessReuse | roster/tezos-call-resolution/comparison.js:117-120 | An accepted list of transitions stops being accepted when any transition is added, so none can be used twice. |
| Comparison.NeutralIsEqual | roster/tezos-call-resolution/comparison.js:167-167 | Nothing removed and nothing added exactly when the snapshots are equal as multisets. |
| Comparison.CountSlices | roster/tezos-call-resolution/comparison.js:164-166 | Each gained relation is counted once in its caller's slice, and the slices sum to the gains. |
| Acceptance.AcceptedMeans | roster/tezos-call-resolution/comparison.js:106-155 | In an accepted comparison every removed row is an unresolved MAY_TOP row with reason module_param; the afters have the callers, sites and forms of the removed rows, number included, are MAY_ENUMERATED and have their target in their caller's file; every other added row is an unresolved `*TOP*` row at the caller and site of an added transition row. |
| Acceptance.AcceptableExact | roster/tezos-call-resolution/comparison.js:106-155 | Some witnesses make a change accepted if and only if its removed and added rows are of those kinds, the bounded ones stand where the removed ones stood, form and number included, and no place has more extra calls than bounded ones. |
| Acceptance.WitnessesMean | roster/tezos-call-resolution/comparison.js:121-140 | The witnesses compared are the canonical rows of those given, with their arity and arguments. |
| Acceptance.RelationsWrittenOut | roster/tezos-call-resolution/comparison.js:105-157 | A relation is gained exactly when a new row that is no value alias and has a target states it and no old row does. |
| Acceptance.SlicesWrittenOut | roster/tezos-call-resolution/comparison.js:104-104 | The slices are the relations whose caller path starts with `irmin/`, with `src/proto_alpha/`, and the others. |
| CfaOracle.Scan | roster/ocaml-cfa-foundation/check-domain.js:48-55 | One scan keeps both products sound, only grows them, and reports no change exactly when every copy is satisfied. |
| CfaOracle.Settle | roster/ocaml-cfa-foundation/check-domain.js:45-56 | Scanning terminates in the least solution of the operations so far. |
| CfaOracle.Oracle | roster/ocaml-cfa-foundation/check-domain.js:33-65 | An operation of unknown kind is refused; otherwise there is one snapshot a solve, each the meaning of the operations before it. |
| CfaOracle.ClosedFollowsPaths | roster/ocaml-cfa-foundation/check-domain.js:48-55 | In a closed state a value at the start of a walk of copies is at its end. |
| CfaOracle.ClosedIsMeaning | roster/ocaml-cfa-foundation/check-domain.js:45-56 | A sound closed state holds at each cell exactly the values seeded where copies lead to it. |
| CfaOracle.MeaningIsLeast | roster/ocaml-cfa-foundation/check-domain.js:31-65 | A snapshot is the least state that holds the seeds and satisfies the copies. |
| CfaOracle.GrowthFillsMissing | roster/ocaml-cfa-foundation/check-domain.js:46-56 | Growing a sound state strictly lowers the number of values that could still arrive, so scanning ends. |
| CfaOracle.SnapshotIgnoresOrder | roster/ocaml-cfa-foundation/check-domain.js:33-65 | Two operation lists with the same seeds and copies have the same snapshot. |
| CfaOracle.GraphCaseBlocksAgree | roster/ocaml-cfa-foundation/check-domain.js:125-139 | The reversed and the duplicated copy of any three-node graph come out cell for cell like the forward one, in one run with solves between. |
| JsonRoundTrip.TreeSound | scripts/ffi-connector-registry.js:52-80 | Whatever the grammar parser reads is a well-formed tree whose printing is exactly the text read. |
| JsonRoundTrip.TreeComplete | scripts/ffi-connector-registry.js:52-80 | Every well-formed tree is read back from its printing, whatever delimited text follows. |
| JsonRoundTrip.NumberSound | scripts/ffi-connector-registry.js:60-62 | The longest number prefix is itself a whole number. |
| JsonRoundTrip.NumberExtend | scripts/ffi-connector-registry.js:60-62 | A number is read whole before any text that cannot continue it. |
| JsonRoundTrip.DocumentExact | scripts/ffi-connector-registry.js:81-81 | A text parses to a document exactly when it is the printing of that document. |
| JsonReader.Reader.Ws | scripts/ffi-connector-registry.js:25-25 | The cursor stops at the first unit that is no blank. |
| JsonReader.Reader.ReadLiteral | scripts/ffi-connector-registry.js:26-29 | The word is consumed exactly when it is there. |
| JsonReader.Reader.ReadPart | scripts/ffi-connector-registry.js:36-48 | One character or escape, decoded and consumed, or refused. |
| JsonReader.Reader.ReadString | scripts/ffi-connector-registry.js:30-51 | The string that the parts up to the closing quote denote. |
| JsonReader.Reader.ReadNumber | scripts/ffi-connector-registry.js:60-62 | The longest number at the cursor. |
| JsonReader.Reader.ReadValue | scripts/ffi-connector-registry.js:52-63 | The value the grammar finds at the cursor, blanks skipped; the cursor advances. |
| JsonReader.Reader.ReadArray | scripts/ffi-connector-registry.js:64-69 | The array the grammar finds; the cursor advances. |
| JsonReader.Reader.ReadObject | scripts/ffi-connector-registry.js:70-80 | The object the grammar finds, refused when a key repeats; the cursor advances. |
| JsonReader.Reader.ReadMemberList | scripts/ffi-connector-registry.js:73-79 | The members with distinct keys, one turn of the loop each. |
| JsonReader.DuplicateRefused | scripts/ffi-connector-registry.js:75-75 | Once a key is seen again, the rest of the object cannot be read. |
| JsonReader.DistinctMeansDistinct | scripts/ffi-connector-registry.js:71-77 | A list of members is distinct exactly when its keys pairwise differ, at every depth, and the object read then holds each member's value under its key. |
| JsonReader.ParseJsonStrict | scripts/ffi-connector-registry.js:23-82 | The parser succeeds exactly on printings of documents that repeat no key at any depth, and returns the printed value; a printing with a repeated key is refused. What the value is, is stated on the characters in `JsonMeaning`. |
| JsonMeaning.StringMeaning | scripts/ffi-connector-registry.js:30-51 | A quoted text is read as a string exactly when its characters spell it: itself for a character that is no control character, quote or backslash; the eight short escapes; and for every code unit its four hexadecimal digits, each in either case. |
| JsonMeaning.NumberMeaning | scripts/ffi-connector-registry.js:60-62 | A text is read as a number exactly when it is an optional sign, an integer without superfluous zeros, and an optional fraction and exponent (section 6 of RFC 8259). |
| JsonMeaning.WordMeaning | scripts/ffi-connector-registry.js:57-59 | `true`, `false` and `null` are read as such. |
| JsonMeaning.BlankMeaning | scripts/ffi-connector-registry.js:25-25 | The characters that may surround a value are exactly those of JavaScript's `\s`. |
| JsonMeaning.BlanksAround | scripts/ffi-connector-registry.js:25-25 | Blanks around a text that is read change nothing. |
| JsonMeaning.ArrayMeaning | scripts/ffi-connector-registry.js:64-69 | A text is read as an array exactly when it is a bracket, the texts read as its elements with commas between them, and a bracket, blanks around. |
| JsonMeaning.ObjectMeaning | scripts/ffi-connector-registry.js:70-80 | A text is read as an object exactly when it is a brace, texts read as keys and values with colons and commas between them, and a brace, no key is repeated, and the object maps each key to its value and nothing else. |
| NdJson.JsonEscape | callgraph-rust/src/main.rs:65-79 | The escaped text, with no raw control character in it. |
| NdJson.EscapeReadsBack | callgraph-rust/src/main.rs:65-83 | The strict reader's string reading returns the escaped string and stops behind the closing quote (section 7 of RFC 8259). |
| NdJson.EscapedIsPrintable | callgraph-rust/src/main.rs:65-79 | Escaped output has no unit below 0x20. |
| NdJson.EscapeMeans | callgraph-rust/src/main.rs:68-76 | Each character is written as the five short escapes, `\u00` with two lower-case digits, or itself. |
| NdJson.RecordReadsBack | callgraph-rust/src/main.rs:81-97 | A rendered record is a JSON document in which the strict reader finds exactly the fields rendered. |
| NdJson.LinesRecovered | callgraph-rust/src/main.rs:153-162 | Splitting a stream of printable lines at its line feeds gives those lines. |
| RustRecords.FieldsWf | callgraph-rust/src/main.rs:116-237 | The field names of every record kind are distinct and need no escaping. |
| RustRecords.LineReadsBack | callgraph-rust/src/main.rs:116-237 | The strict reader finds in a rendered record of any kind exactly its fields. |
| RustRecords.LinesMean | callgraph-rust/src/main.rs:116-237 | The members, in number and by name, that the strict reader finds in a function, call, dyn-call and trait-impl record, and the values that they hold. |
| RustRecords.StreamReadsBack | callgraph-rust/src/main.rs:106-113 | The whole output splits at line feeds into exactly the records, each read back field for field. |
| RustWalk.Emitter.EdgeRecord | callgraph-rust/src/main.rs:140-192 | Only the first edge of a key is written and counted. |
| RustWalk.WalkInstance | callgraph-rust/src/main.rs:573-617 | A walkable body offers one edge per call terminator, in order; any other body offers nothing and is not walked. |
| RustWalk.EmitUniverse | callgraph-rust/src/main.rs:842-855 | The function records are the first of every name of the function universe, in order. |
| RustWalk.OneNodePerName | callgraph-rust/src/main.rs:851-865 | Every known name has exactly one function record of the walk's own. |
| RustWalk.WalkItems | callgraph-rust/src/main.rs:857-871 | All edges of the walkable instances are offered in order, every new name gets its function record, and the walked set is exactly the names of the walkable instances. |
| RustWalk.AnchorUnwalked | callgraph-rust/src/main.rs:873-879 | Exactly the names that were not walked are anchored, in whatever order the set is visited. |
| RustWalk.RunAnalysis | callgraph-rust/src/main.rs:822-880 | The run offers the walk's edges and then the anchors of all known names not walked, behind the deduplicating emitter, and writes one function record per known name after the facts. Its edges tell every call of a walked body and every name not walked, tell nothing else, and no two agree in caller, site and callee. |
| RustWalk.NoCallDropped | callgraph-rust/src/main.rs:584-615 | Every call terminator of a walked body has an output edge with its caller and its site, and with the callee of a MUST or open answer, or the trait and method of a dynamic one, which is left open. |
| RustWalk.EdgesAreTold | callgraph-rust/src/main.rs:573-617 | The same of all edges of the output, and in the other direction: each tells one of those calls, or anchors a name that was not walked. |
| RustWalk.DifferentCallsDifferentEdges | callgraph-rust/src/main.rs:149-152 | Two calls that differ in caller, site or callee, or trait and method, leave two edges. |
| RustWalk.TallyCounts | callgraph-rust/src/main.rs:106-192 | The four counters count the function records, the MUST edges, the open edges and the facts that were written. |
| RustWalk.CallersAreWalked | callgraph-rust/src/main.rs:857-871 | Every edge of the walk starts at a walked name. |
| RustWalk.WalkedOrAnchored | callgraph-rust/src/main.rs:830-879 | Every known name was walked or carries its anchor in the output, and a walked name carries one only if its own body offers that very edge. |
| RustWalk.OpenFrontiersSurvive | callgraph-rust/src/main.rs:149-152 | Every open edge leaves an open edge of its key in the output exactly when no key with an open edge is led by a MUST edge. |
| RustWalk.UncoveredChain | callgraph-rust/src/main.rs:149-152 | A caller that was left open somewhere and keeps no open edge has a run, true to every MUST answer, with a chain that the output does not cover. |
| RustWalk.StepCovered | callgraph-rust/src/main.rs:596-614 | Where every caller left open keeps an open edge, one step of a run follows an output MUST edge or leaves a name with an open frontier. |
| RustWalk.ChainCovered | callgraph-rust/src/main.rs:822-880 | There, every concrete call chain of a run true to the MUST answers follows MUST edges all the way or up to a name with an open frontier. |
| RustWalk.CoverageExact | callgraph-rust/src/main.rs:822-880 | All chains of all such runs are covered if and only if every walked call site with an open answer has a caller with an open edge that comes first of its key. |
| RustWalk.SourceNamesCover | callgraph-rust/src/main.rs:451-568 | When no MUST answer names a callee that an open answer names, which is what the two classifiers give, every open frontier survives and every chain is covered. |
| Sexp.CommentEnd | roster/ffi-build-attribution/attribution.js:32-32 | A comment is skipped to its line feed, which stays. |
| Sexp.StringEnd | roster/ffi-build-attribution/attribution.js:36-38 | The quoted value with its escapes, or that no quote closes it. |
| Sexp.AtomEnd | roster/ffi-build-attribution/attribution.js:41-41 | The longest run of atom characters. |
| Sexp.ReadToken | roster/ffi-build-attribution/attribution.js:33-42 | One token with its line, and the rest of the text. |
| Sexp.Tokenize | roster/ffi-build-attribution/attribution.js:28-45 | The tokens of the text with their lines; it throws exactly on an unterminated string. |
| Sexp.Parser.ReadOne | roster/ffi-build-attribution/attribution.js:48-55 | One node from the cursor, as the recursive specification reads it. |
| Sexp.Parse | roster/ffi-build-attribution/attribution.js:46-57 | The forest that the specification reads from the tokens. |
| SexpRoundTrip.ForestFlattens | roster/ffi-build-attribution/attribution.js:46-57 | Flattening a parsed forest gives back its tokens, lines included except those of closing parentheses. |
| SexpRoundTrip.ForestIffClosed | roster/ffi-build-attribution/attribution.js:52-56 | Parsing succeeds exactly when no opened list stays unclosed; stray closing parentheses are kept as leaves. |
| SexpRoundTrip.ForestUndoes | roster/ffi-build-attribution/attribution.js:46-57 | Parsing the tokens of a clean forest gives the forest back. |
| SexpRoundTrip.ForestIsClean | roster/ffi-build-attribution/attribution.js:50-52 | Whatever was parsed has no atom that reads as a parenthesis where one would count. |
| SexpRoundTrip.LayoutLexes | roster/ffi-build-attribution/attribution.js:28-45 | Tokenizing any layout gives its lexemes' values, whatever blanks and comments stand between. |
| SexpRoundTrip.LayoutReadsBack | roster/ffi-build-attribution/attribution.js:28-57 | A forest comes back from any layout of its tokens, up to line numbers, exactly when no atom reads as a parenthesis where one would count. |
| SexpRoundTrip.PrintedForestReadsBack | roster/ffi-build-attribution/attribution.js:28-57 | Printing any clean forest, every other atom quoted, and reading it gives the forest up to line numbers. |
| SexpRoundTrip.QuotedParenExample | roster/ffi-build-attribution/attribution.js:34-39 | A quoted opening parenthesis opens a list once it is a token. |
| OriginPackage.CheckArtifacts | scripts/origin-consumer-artifacts.js:17-20 | The first listed artifact that is missing or does not match its digest, or none exactly when all are sealed. |
| OriginPackage.CheckNoReports | scripts/origin-consumer-artifacts.js:21-21 | Nothing exactly when no report file is there. |
| OriginPackage.ValidateExact | scripts/origin-consumer-artifacts.js:7-25 | A directory is accepted with a record exactly when it is that record's complete and sealed package, or an error record without reports. |
| OriginConsumer.Consumer.WriteFile | scripts/origin-consumer.js:266-268 | A write either stores the content or throws, leaving the file untouched or with any content. |
| OriginConsumer.Consumer.PurgeReports | scripts/origin-consumer.js:175-184 | Only report files are removed, and every one whose removal does not fail. |
| OriginConsumer.Consumer.CopyReports | scripts/origin-consumer.js:235-235 | The three reports are copied in order up to the first failure; it throws exactly if one of the copies fails. |
| OriginConsumer.Consumer.TryBlock | scripts/origin-consumer.js:185-244 | It throws exactly when some step fails, the evidence is invalid or the gate's exit contradicts it. Without a throw, the record is complete with the right status and exit and its artifacts are the files just published. |
| OriginConsumer.Consumer.Conclude | scripts/origin-consumer.js:230-244 | It throws exactly when the gate's exit contradicts the verdict or a copy, the late check or a hash fails. Otherwise status and exit follow the verdict and the drift, and the hashes are of the copied files. |
| OriginConsumer.Consumer.CatchBlock | scripts/origin-consumer.js:244-247 | After an error the record is an error record, reports are withdrawn, and an unvalidated gate file too. |
| OriginConsumer.Consumer.CleanupBlock | scripts/origin-consumer.js:249-264 | A cleanup failure turns the run into an error and withdraws the reports. |
| OriginConsumer.Consumer.FinalBlock | scripts/origin-consumer.js:265-277 | Either the record is written or everything that claims success is withdrawn. |
| OriginConsumer.Recorded | scripts/origin-consumer.js:266-268 | With the two final files added, the validator accepts the record exactly when it is complete or no report is left. |
| OriginConsumer.Consumer.Run | scripts/origin-consumer.js:147-280 | A run is complete if and only if its schedule has no fault, the evidence is valid and the gate's exit agrees with it; exit and status are those of the verdict and the drift then, and 2 and error otherwise. A complete run validates with its own contents. When removals succeed, the directory holds a record the validator accepts or neither a record nor a report, and the gate file exactly if the evidence was valid. |
| OriginConsumer.FaultlessMeans | scripts/origin-consumer.js:185-277 | The conditions of a faultless schedule, one by one. |
| Coverage.CheckModules | scripts/origin-consumer.js:66-70 | The module list passes exactly when its paths are relative, without parent steps, and distinct. |
| Coverage.CheckGroups | scripts/origin-consumer.js:74-79 | The groups pass exactly when each is well formed and keys are distinct; the sum is theirs. |
| Coverage.ValidateReference | scripts/origin-consumer.js:63-81 | It throws exactly on an invalid reference. |
| Coverage.ReferenceMeans | scripts/origin-consumer.js:63-81 | A valid reference: version 1, no negative total, distinct safe module paths as many as the total says, and well-formed groups, distinct in channel, form or escapes, whose counts sum to the origin total. |
| Coverage.SafePathMeans | scripts/origin-consumer.js:68-68 | A path is safe when it does not begin with a slash and none of its parts between slashes is `..`. |
| Coverage.PathHasParts | scripts/origin-consumer.js:68-68 | Every path has such parts. |
| Coverage.TotalsMean | scripts/origin-consumer.js:71-72 | The metrics of the totals are their four fields. |
| Coverage.CountsMean | scripts/origin-consumer.js:95-98 | The count of a key is that of the group with its channel, form and escapes, and 0 without one. |
| Coverage.KeyTextMeans | scripts/origin-consumer.js:76-76 | The text by which keys are sorted: channel, form and the decimal escapes with NUL between them. |
| Coverage.Lacking | scripts/origin-consumer.js:101-105 | The listed names that the other list lacks, in order. |
| Coverage.CompareTotals | scripts/origin-consumer.js:91-94 | A delta with both sides for exactly the totals that differ, each once, in the order of the metrics. |
| Coverage.CompareGroups | scripts/origin-consumer.js:95-100 | A delta with both sides for exactly the keys whose counts differ, each once, sorted by the text of the key. |
| Coverage.CompareCoverage | scripts/origin-consumer.js:89-108 | The deltas are exactly the ones that hold, each with its true sides and in order, so there is none exactly when totals, groups and both module populations agree. |
| Coverage.PrecedesMeans | scripts/origin-consumer.js:91-106 | The order of the deltas: totals in the order of the metrics, then groups by the text of their key, then the two module populations. |
| Coverage.GroupsDetermineOrigins | scripts/origin-consumer.js:74-80 | Two group lists with distinct keys that agree on every count have the same origin total. |
| NativeEvidence.Deepest | roster/tezos-local-recursion/witness.js:86-87 | The callers with no other caller strictly inside them. |
| NativeEvidence.MinimalBelow | roster/tezos-local-recursion/witness.js:33-36 | Inside every caller lies a minimal one. |
| NativeEvidence.UniqueDeepestInsideAll | roster/tezos-local-recursion/witness.js:84-89 | A caller that is the only minimal one lies inside every owner around the application. |
| NativeEvidence.MatchingRowsAreNativeRows | roster/tezos-local-recursion/witness.js:93-103 | The checker's row conditions hold exactly for the rows that the draft builder writes; the before row's target lines stay open. |
| NativeEvidence.LocationsMean | roster/tezos-local-recursion/witness.js:33-36 | One location contains another when both are nonempty stretches of one named file and its offsets enclose the other's. |
| NativeEvidence.SiteMeans | roster/tezos-local-recursion/witness.js:61-61 | The call site is the file and the decimal line of the application's start. |
| NativeEvidence.IncludesMeans | roster/tezos-local-recursion/witness.js:70-70 | One text includes another exactly when it is something, the other, and something. |
| NativeEvidence.SuppliedMeans | roster/tezos-local-recursion/witness.js:106-106 | The supplied slots are counted by the places that hold one. |
| NativeEvidence.PairRows | roster/tezos-local-recursion/witness.js:93-103 | The ten fields of both rows of an accepted pair and their lines, written out. |
| NativeEvidence.PairExact | roster/tezos-local-recursion/witness.js:62-115 | A pair is accepted if and only if its evidence is complete, its caller the one deepest owner, its rows are the native ones, and its listed occurrences are those of its group, each once. |
| NativeEvidence.AcceptedPair | roster/tezos-local-recursion/witness.js:62-115 | An accepted pair has the native rows and storage, its caller's span lies inside every owner's around the application, and the listed occurrences are exactly the group's. |
| NativeEvidence.AcceptedRoot | roster/tezos-local-recursion/witness.js:60-92 | The root of an accepted pair is one owner of the record, a function literal under the name its allocation gives it; it is around the caller, the caller around the application and the application around the head, which is the binder of the binding that the caller lies in. |
| WitnessLoader.ApproveOne | roster/tezos-local-recursion/witness.js:178-191 | A transition is accepted exactly when it is reviewed, native, unused, and both rows have capacity, which it consumes. |
| WitnessLoader.OneMoreFits | roster/tezos-local-recursion/witness.js:142-146 | Consuming capacity one by one agrees with sub-multisets and distinct heads. |
| WitnessLoader.ApproveTransitions | roster/tezos-local-recursion/witness.js:178-191 | The loop succeeds exactly when all transitions fit. |
| WitnessLoader.CheckGroups | roster/tezos-local-recursion/witness.js:192-198 | It refuses exactly when a group with an approved member is not covered, or a storage status changed. |
| WitnessLoader.ApproveResidual | roster/tezos-local-recursion/witness.js:200-213 | A residual is accepted exactly when its head is approved, over-applied and unused, its evidence matches, and capacity is left. |
| WitnessLoader.ApproveResiduals | roster/tezos-local-recursion/witness.js:199-216 | The loop succeeds exactly when all residuals fit. |
| WitnessLoader.LoadWitness | roster/tezos-local-recursion/witness.js:173-216 | A witness is accepted exactly when it meets the closed form of acceptance. |
| WitnessLoader.AcceptedWitness | roster/tezos-local-recursion/witness.js:173-216 | In an accepted witness heads are distinct and rows native, befores fit the baseline, afters and residuals together fit the candidate, and each residual has a head of its own among the transitions. |
| WitnessLoader.AcceptedEach | roster/tezos-local-recursion/witness.js:178-216 | Each accepted transition is reviewed and native to the record and application of its head, with storage unconfirmed; each residual has its head among the transitions, an application with surplus arguments whose numbers it states, and the row of the returned call. |
| WitnessLoader.ResidualRow | roster/tezos-local-recursion/witness.js:209-212 | That row: the caller and site of the application, `*TOP*` called, no target. |
| WitnessLoader.GroupsComplete | roster/tezos-local-recursion/witness.js:192-196 | Every application of a group with an approved member has a transition of its own. |
| WitnessDraft.DeltaIndex.constructor | roster/tezos-local-recursion/prepare-witness.js:16-23 | The maps hold the delta's counts and the positioned rows of the delta. |
| WitnessDraft.DeltaIndex.Take | roster/tezos-local-recursion/prepare-witness.js:24-28 | One count and one listed row of the position are taken, and the row is the one asked for. |
| WitnessDraft.DeltaIndex.Remaining | roster/tezos-local-recursion/prepare-witness.js:29-29 | The number of delta rows not yet taken. |
| WitnessDraft.CollectOccurrences | roster/tezos-local-recursion/prepare-witness.js:87-89 | The admitted applications of all records, in order. |
| WitnessDraft.DraftTransitions | roster/tezos-local-recursion/prepare-witness.js:90-101 | The loop over maps of lists computes the drafting specified on multisets. |
| WitnessDraft.DraftResiduals | roster/tezos-local-recursion/prepare-witness.js:104-111 | The same for the residual loop, with its check of partial groups. |
| WitnessDraft.DraftOneConserves | roster/tezos-local-recursion/prepare-witness.js:90-100 | Drafting moves rows and positions from the stock to the draft and loses none. |
| WitnessDraft.PlanCompletes | roster/tezos-local-recursion/prepare-witness.js:84-112 | A draft without leftovers has befores equal to the removed delta and afters plus residuals equal to the added one, takes each positioned row at most once, and drafts no occurrence twice. |
| WitnessDraft.Prepare | roster/tezos-local-recursion/prepare-witness.js:84-112 | The result is the specified one, and a draft is complete. |
| WitnessDraft.PlanTold | roster/tezos-local-recursion/prepare-witness.js:84-112 | The answer with the steps that lead to it: each admitted application, in order, has neither of its rows left, or both and all the evidence and becomes a transition; each drafted transition has its group drafted and takes its residual row if it is left. Each of the nine refusals has its reason at the step where the draft stops, and a draft is refused for leftovers exactly when a row is left after all steps. |
| WitnessDraft.LeftoversExhausted | roster/tezos-local-recursion/prepare-witness.js:84-112 | Where leftovers are the reason, every admitted application is drafted or lacks one of its rows, and every drafted over-application has its residual or that row, with a seat, is not left. |
| WitnessDraft.DraftLoads | roster/tezos-local-recursion/prepare-witness.js:102-106 | A completed draft is accepted by the witness loader, against any snapshots holding the delta's positioned rows, exactly when the storage status of every head is still open. |
| PendingRows.FitsIsBound | roster/tezos-local-recursion/check-native.js:57-64 | A removed row and an application leave exactly one possible head row. |
| PendingRows.ResidualIsReturned | roster/tezos-local-recursion/check-native.js:73-75 | A head row leaves exactly one possible residual row, for over-applications only. |
| PendingRows.FitsMeans | roster/tezos-local-recursion/check-native.js:57-67 | Which removed row, added row and application fit, field by field. |
| PendingRows.ResidualMeans | roster/tezos-local-recursion/check-native.js:73-75 | Which row is the residual of a head row, field by field. |
| PendingRows.MatchRemoved | roster/tezos-local-recursion/check-native.js:58-69 | The nested loops compute the first-fit pairing. |
| PendingRows.MatchResiduals | roster/tezos-local-recursion/check-native.js:70-78 | The nested loops compute the first-fit claiming of residuals. |
| PendingRows.GreedySound | roster/tezos-local-recursion/check-native.js:58-79 | What is approved has an injective match of removed rows to added rows and to applications, and every other added row is the one residual of a matched over-application. |
| PendingRows.JustifiedConserves | roster/tezos-local-recursion/check-native.js:79-79 | Then the added rows are the heads and the residuals, and there are at most as many residuals as heads. |
| PendingRows.JustifiedMeans | roster/tezos-local-recursion/check-native.js:58-79 | In an accounting each removed row has such a row and application, and each other added row is the residual of one of them. |
| PendingExact.GreedyExact | roster/tezos-local-recursion/check-native.js:58-79 | The first fit approves every change that has a complete accounting if and only if applications with one caller, site, binder, root and partiality are over-applied together or not at all, and a binder with several bounds at one caller and site shares none of them with another binder there. The same for the changes that subtraction can yield only. |
| PendingExact.ApprovalIgnoresOrder | roster/tezos-local-recursion/check-native.js:58-79 | Approval is the same for every order of the rows of every change if and only if the same condition holds; and likewise for the changes that subtraction can yield. |
| PendingExact.GreedyCounts | roster/tezos-local-recursion/check-native.js:58-79 | Under that condition approval holds exactly when the counts add up, and exactly when any complete accounting exists. |
| PendingExact.MixedOverMisses | roster/tezos-local-recursion/check-native.js:59-78 | An exact and an over-applied application that no row tells apart: some change that subtraction can yield is approved in one order of its rows and refused in another. |
| PendingExact.SharedBoundMisses | roster/tezos-local-recursion/check-native.js:59-68 | The same, with a change that subtraction can yield, for a binder with two bounds, one of them shared with another binder. |
| PendingExact.JustifiedCounts | roster/tezos-local-recursion/check-native.js:58-79 | Any complete accounting, found greedily or not, passes the count. |
| PendingExact.GreedyMissesExample | roster/tezos-local-recursion/check-native.js:58-78 | An exact and an over-applied call of one local function on one line, in two exception scopes: a change with a complete accounting is refused in one order of its rows and approved in the other. |
| PendingExact.ValidatePending | roster/tezos-local-recursion/check-native.js:55-80 | The returned tally accounts for the whole change: removed = heads, added = heads + residuals, residuals at most heads; for fitting applications there is one exactly when an accounting exists. |
| ChangedGroups.Index | roster/tezos-call-resolution/verify.js:75-83 | The one-pass index holds for every asked key the rows that filtering for it would give. |
| ChangedGroups.Changed | roster/tezos-call-resolution/verify.js:71-87 | The report lists each changed key once, in order, with the filtered rows of both snapshots. |
| ChangedGroups.GroupShowsItsChange | roster/tezos-call-resolution/verify.js:71-87 | The difference of a group's two sides is the part of the change that falls into it. |
| ChangedGroups.ReportedIffChanged | roster/tezos-call-resolution/verify.js:72-72 | A key is reported exactly when the canonical rows of its group changed. |
| ChangedGroups.GroupMeans | roster/tezos-call-resolution/verify.js:77-81 | The rows of a group are those of the snapshot with its caller path, caller, call site and callee name, in order. |
| JsonValue.WrittenReadsBack | scripts/analysis-report-consumer.js:20-21 | Reading what was written gives the value back, in the compact and the indented layout. |
| JsonValue.CanonicalIdempotent | scripts/analysis-report-consumer.js:12-16 | Canonicalising twice is canonicalising once. |
| JsonValue.CanonicalSorts | scripts/analysis-report-consumer.js:12-16 | The canonical form has sorted keys at every depth and the same data. |
| JsonValue.EncodedExact | scripts/analysis-report-consumer.js:17-19 | Two values encode to the same text, and have the same canonical form, exactly when they differ in key order at most. |
| JsonValue.StoredEncodesAlike | scripts/analysis-report-consumer.js:17-21 | A value stored in canonical form and read again encodes as before. |
| JsonText.WrittenMeans | scripts/analysis-report-consumer.js:17-20 | The text that is written, compact or with two blanks a level, from the value down to its escapes. |
| JsonParsing.StringParsed | scripts/analysis-report-consumer.js:19-19 | JSON.parse takes a quoted text for the string that its characters spell, by the same relation as the strict reader, and nothing else. |
| JsonParsing.NumberParsed | scripts/analysis-report-consumer.js:19-19 | It takes exactly the number texts of section 6 of RFC 8259 for numbers. |
| JsonParsing.WordParsed | scripts/analysis-report-consumer.js:19-19 | And the three words. |
| JsonParsing.BlankBeforeParsed | scripts/analysis-report-consumer.js:19-19 | The blanks before a value are tab, line feed, carriage return and space only. |
| JsonParsing.BlankAfterParsed | scripts/analysis-report-consumer.js:19-19 | And those after it. |
| JsonParsing.AroundParsed | scripts/analysis-report-consumer.js:19-19 | Such blanks around a text that is parsed change nothing. |
| JsonParsing.ArrayParsed | scripts/analysis-report-consumer.js:19-19 | A text is parsed as an array exactly when it is a bracket, texts parsed as its elements with commas between them, and a bracket, blanks around. |
| JsonParsing.ObjectParses | scripts/analysis-report-consumer.js:19-19 | Texts parsed as keys and values, in braces, are parsed as an object; a repeated key keeps its first place and its last value. |
| JsonParsing.ObjectParsed | scripts/analysis-report-consumer.js:19-19 | And nothing else is parsed as an object. |
| ReportContract.CollectRows | scripts/analysis-report-consumer.js:46-54 | The loop computes the specified rows or the first refusal. |
| ReportContract.RowsExact | scripts/analysis-report-consumer.js:46-54 | The findings pass exactly when each is valid and no two have the same identity, and the rows are then the findings one by one. |
| ReportContract.IdentityExact | scripts/analysis-report-consumer.js:51-52 | Identities of entries in one file tell their functions apart; those of entries in two files differ for all function names if and only if neither file name goes on with a colon after the other. |
| ReportContract.IdentityCollides | scripts/analysis-report-consumer.js:51-52 | Where one does, every entry of the longer file name shares its identity with an entry of the shorter one. |
| ReportContract.ReportExact | scripts/analysis-report-consumer.js:39-57 | A report is accepted if and only if it has the api-review profile, a schema, exactly one API surface, covered, whose findings are valid, distinct and as many as it says, and valid producers; it then keeps the findings one by one. |
| ReportContract.CheckReport | scripts/analysis-report-consumer.js:39-58 | The method accepts exactly those values and keeps schema, producers, coverage and findings as they are. |
| ReportContract.FindingExact | scripts/analysis-report-consumer.js:48-53 | A finding is accepted if and only if its id joins the kind, a file and a function, and its subject is that function; its identity is then theirs. |
| ReportContract.NoFindingExact | scripts/analysis-report-consumer.js:48-50 | It is no finding of the kind exactly when its kind differs or its id does not start with `api_surface` and a bar; any other refusal is one of its identity. |
| ReportContract.ProducerExact | scripts/analysis-report-consumer.js:21-24 | A producer is accepted exactly when it has a nonempty name and soundness class and a version that is a string or null; it is compared by these three. |
| ReportContract.ScopeExact | scripts/analysis-report-consumer.js:60-63 | A scope is accepted exactly when it is a version 1 object with a nonempty corpus and configuration, and its hash is that of its encoding. |
| Splitting.SplitJoins | scripts/analysis-report-consumer.js:49-49 | Splitting a text at a separator gives parts without it that join to the text. |
| Splitting.JoinSplits | scripts/analysis-report-consumer.js:49-49 | Parts without the separator come back from their join. |
| Splitting.SplitFirst | scripts/analysis-report-consumer.js:48-49 | A text has a first part and a bar behind it exactly when it starts with the two. |
| ReportContract.DeltaPartitions | scripts/analysis-report-consumer.js:65-75 | New and unchanged make the current report, unchanged and absent the baseline; counts agree and every entry says truly on which sides it occurs. |
| ReportContract.DeltaSorted | scripts/analysis-report-consumer.js:66-66 | The three lists of a delta are sorted by identity. |
| ReportContract.SelfDelta | scripts/analysis-report-consumer.js:65-75 | Against itself a report has nothing new and nothing absent. |
| ReportPackage.PackageIsBaseline | scripts/analysis-report-consumer.js:85-96 | A record that claims completion and carries the report's hash makes the package acceptable as a baseline, with the report and scope it was made from. |
| ReportPackage.StoredScope | scripts/analysis-report-consumer.js:93-94 | The stored scope reads back as a scope with the same hash. |
| ReportPackage.PackageRefused | scripts/analysis-report-consumer.js:85-87 | Without a complete record, or without the report's hash in it, no package is accepted. |
| ReportPackage.RerunFindsNothing | scripts/analysis-report-consumer.js:109-117 | The same report and scope run against such a package are compatible, with nothing new and nothing absent. |
| ReportMeaning.BaselineExact | scripts/analysis-report-consumer.js:85-96 | A package is accepted as a baseline if and only if its record is complete, of version 1 and of a completed status, and names the hashes of the stored report and scope, which are valid; it then gives that report and that scope's hash. |
| ReportMeaning.AssessExact | scripts/analysis-report-consumer.js:109-122 | What a run assesses, field by field: the report, the scope and its hash, and with a baseline the delta against it, if schema, producers, coverage and scope agree. |
| ReportMeaning.DeltaMeans | scripts/analysis-report-consumer.js:71-74 | The members of delta.json, by name. |
| ReportMeaning.SummaryMeans | scripts/analysis-report-consumer.js:73-73 | Its counts, null without a baseline. |
| ReportMeaning.ClassifiedMeans | scripts/analysis-report-consumer.js:66-66 | Its entries. |
| ReportMeaning.SummaryOfReport | scripts/analysis-report-consumer.js:127-127 | What the run record tells of the report. |
| ReportMeaning.ErrorMeans | scripts/analysis-report-consumer.js:106-106 | The members of a run record before the reports are written. |
| ReportMeaning.RunMeans | scripts/analysis-report-consumer.js:126-135 | And afterwards. |
| ReportMeaning.HashesMean | scripts/analysis-report-consumer.js:130-130 | The four hashes of a complete run, each of the file under its name. |
| ReportPackage.HashAll | scripts/analysis-report-consumer.js:130-130 | The hashes recorded up to the first file that cannot be read back, all four exactly when each can. |
| ReportPackage.RunConsumer | scripts/analysis-report-consumer.js:98-139 | Exit 0 exactly when the inputs pass and no step fails, and the package is then its own baseline and holds the report, the scope, the delta, empty diagnostics and the record of their hashes; a failed run that can write leaves its message and a record that says so. A package is acceptable as a baseline exactly when the report's hash was taken and a run record was written, also by a run that exits 2. |
| ReportPackage.SchedulesMean | scripts/analysis-report-consumer.js:123-137 | The steps that must work for either, one by one. |
| ReportPackage.FailedRunLeavesBaselineExample | scripts/analysis-report-consumer.js:126-136 | For a report and a scope that are accepted, one file that cannot be read back for hashing: the run exits 2 and its package passes for the same baseline as that of the run in which nothing fails, which exits 0. |
| ReportPackage.ExampleAssessed | scripts/analysis-report-consumer.js:109-122 | A report with one finding and a scope that the consumer accepts. |

## Left out

- Loading of programs: Go SSA and CHA construction, rustc queries, mono-item collection, `Instance::try_resolve`, spans, SQLite, git, opam and process spawning. Control-flow graphs, resolved callees, edges, row lists and probe records are inputs.
- The classifiers `classify_callee` and `classify_resolved` of the Rust producer: their answers are inputs; `ChainCovered` and `StepCovered` assume that a MUST answer names the only runtime target, and `SourceNamesCover` that no MUST answer names what an open one names.
- CHA edges without a caller or callee, or from the synthetic root, which the visitor skips before it does anything else.
- The sort algorithms themselves: `FlushDeterministic` takes any sorted arrangement, `SortedSet` picks the least element each time, and the order of `JSON.stringify` texts in `ChangedGroups.Changed` is a parameter; the producer sort by locale in the api-review consumer is a parameter.
- ChaBytesOrderIndependent: which interleavings the depth-first `GraphVisitEdges` of golang.org/x/tools can give, and the order of the candidates of one dynamic call, are not part of this model, so the condition is sufficient for them only.
- BytesOrderIndependent: `json.Marshal` is a parameter that gives one line a record and tells the offered records apart; it does not where it replaces invalid UTF-8.
- Instance identity in the Rust walk: names merge monomorphisations, and the anchoring property is stated on names, as the code keeps them.
- String-concatenated keys (`caller→callee@site`, `channel\0form\0escapes`, `cmt#index`) are tuples; a clash between two different tuples with one concatenation is not modelled. `JSON.stringify` of a row, used as a key, is the row itself.
- Hashes are functions of the content; `OriginPackage` takes them as injective, `ReportPackage` needs only that a hash is text. MD5, revisions, digests and provenance files are not checked.
- UTF-8 and UTF-16: well-formedness of surrogates, and the escape that `JSON.stringify` writes for a lone surrogate.
- JavaScript objects: the `__proto__` key and the ordering of integer-like keys.
- Numbers of JSON are kept as lexemes: `1.0` and `1` are different versions here, and the value of `Number(lexeme)` is not modelled.
- Error messages and positions; refusals are told apart by kind only, and where an operation would report the first of several faults, some report only that there is one.
- The shape of a probe record (witness.js:38-53): field types, digests, and the uniqueness of owner and occurrence indices; a compiler's placeholder location is an invalid one.
- The provenance checks of `loadWitness` and `prepare` (digests, manifests, replay of the probe, repository state, file names), and the writing of the draft file.
- roster/tezos-call-resolution/verify.js `loadWitness`: not part of this model; `changedGroups` is.
- roster/tezos-local-recursion/comparison.js re-exports a file that is not part of this model; the algebra is that of roster/tezos-call-resolution/comparison.js.
- The order of anchors in the Rust output: the source iterates a hash set, and the model states which there are.
- `compareCoverage` where a reference list repeats a group: `CountOf` takes the last one, as a Map does, and validation excludes repetition.
- `ReportContract` tests of `finding_count` and `version` compare lexemes with decimal numerals.
- `ReportPackage` models one directory that no one else writes to; symbolic links, existing outputs and the creation of the directory are left out.
- `list` and `validateRegistry` of scripts/ffi-connector-registry.js: they check each field of a connector alone, refuse a repeated id or list element, and sort.
- The other consumers, checkers, gates and renderers of the repository: flat case splits, input and output, or tests of code in other languages.
