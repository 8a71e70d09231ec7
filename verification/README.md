# A Dafny model of the contract checker's core

The contract checker verifies a binary program against a graph of
*contracts*. Each contract sits at an address, constrains the memory
zones and registers at that address, and links to the contracts that
follow and precede it. A processor plugin interprets each block of
instructions between two contracts and checks that the post-contract
follows from the pre-contract. A coverage record tracks which edges of
the graph have been proved.

This project models the sequential core of that checker as pure Dafny
functions over immutable datatypes, and proves properties about them.

- **Option and Result** (`Wrappers`): the return types of the model.
- **JSON values** (`JsonArguments`): the argument reader's view of a JSON
  document, with its stream of tokens and how that stream nests.
- **JSON lexer** (`JsonLexer`): punctuation, keywords, strings (their
  text as it stands; escapes are not processed), and numbers with their sign, base, fraction and exponent
  context flags.
- **JSON parser** (`JsonParser`): the token state machine, its stack of
  open containers, and the bit array used by the big-integer conversion.
- **JSON writer** (`JsonWriter`): turns a stream of events back into text,
  including where commas go.
- **Expressions** (`Expressions`): the constraint terms held by zones and
  registers, and how they are read and written.
- **Expression lexer** (`ExprLexer`): identifiers, keywords and their
  bit-width suffixes.
- **Expression operators** (`ExprOperators`):
  - the operator stack that builds an application, and how the last
    argument is absorbed;
  - how a table code is turned into an operation code and its symbolic
    flag.
- **Memory zones** (`MemoryZones`, `ZoneActions`):
  - the zone id pool, and zone identities;
  - zone modifiers (create, rename, split, merge), how they are
    read and written, and how they round-trip.
- **Registers** (`Registers`): register tables and their entries.
- **Contracts** (`Contracts`):
  - the contract record and its edges;
  - the id resolver, with its pending references and forward
    references;
  - the contract reader and writer;
  - graph bookkeeping: bound slots, the first and last contracts, and
    addresses.
- **Processor interface** (`Processor`): the growable address vector that
  holds the targets and stop addresses of a block, and the target
  retrieval protocol.
- **Checker** (`Checker`):
  - the cursor over the graph and the coverage record;
  - the driver loop that visits the contracts, checks every block,
    reports on coverage and checks the optional property.

## External behaviour as parameters

The processor and domain plugins are loaded from a shared library at run
time. They, and the conversions between text and integers, are not
modelled. Each one is a function parameter of the operation that calls it,
for example:

- the instruction interpreter that yields a block's targets;
- the block check;
- the text/integer conversions;
- the operation-code tables;
- the domain constructors.

Every property proved here therefore holds for *every* behaviour of those
plugins. A property that needs more from a plugin says so in a `requires`
clause, such as "the expression reader inverts the expression writer".

## Source bugs and corrected versions

Where the source has a bug, the model carries the code as written and a
corrected version side by side. They are selected by an `asWritten` flag
or by a separate `…AsWritten` member. The rest of the model uses the
corrected definition.

## Model

| member | source | states |
|---|---|---|
| MemoryZones.NewPool | src/MemoryZone.h:6-14 | a fresh pool's id counter starts at 0 |
| MemoryZones.GenerateNewId | src/MemoryZone.h:11 | the id handed out is larger than the old counter and becomes the new counter |
| MemoryZones.IdsStrictlyIncreasing | src/MemoryZone.h:8-11 | n successive ids are counter+1 … counter+n: strictly increasing, so distinct, and positive from a fresh pool |
| MemoryZones.EmptyZone | src/MemoryZone.h:20-37 | a zone built from a pool alone has no id and is not valid |
| MemoryZones.NewZone | src/MemoryZone.h:29-33 | the full constructor takes the pool's next id, which makes the zone valid, and stores the given code address, name, start and length |
| MemoryZones.Initialize | src/MemoryZone.h:38-46 | only a zone without an id can be initialised, and it then equals a freshly constructed zone |
| MemoryZones.ClearZone | src/MemoryZone.h:47-53 | a cleared zone is invalid, has no code address or name, and its expressions evaluate to nothing under every register assignment |
| MemoryZones.Rename | src/MemoryZone.h:54 | only the name changes |
| MemoryZones.NewZoneFromSplit | src/MemoryZone.h:55-64 | the zone's length becomes start − old start; the new zone starts at the cut, takes the next id and the remaining length |
| MemoryZones.SplitLengths | src/MemoryZone.h:55-64 | under any evaluation, the two lengths after a split add up to the old length, and the first is the distance to the cut point |
| MemoryZones.Merge | src/MemoryZone.h:65-70 | the target's length becomes source start − start + source length, and the source is cleared |
| MemoryZones.MergeLength | src/MemoryZone.h:65-70 | under any evaluation, the merged length reaches the end of the source zone |
| MemoryZones.SplitThenMerge | src/MemoryZone.h:55-70 | merging the zone created by a split back into its origin restores the original length, start, id and name, and clears the created zone |
| MemoryZones.IndexOfName | src/MemoryZone.cpp:555-576 | the search finds the first zone at or after k that carries the name, skipping one excluded position, and returns nothing when no such zone exists |
| MemoryZones.MergePair | src/MemoryZone.cpp:552-578 | the reference pair: two distinct zones carrying the first and the second name, found whenever two such zones exist |
| MemoryZones.Scan | src/MemoryZone.cpp:555-577 | the cursor loop keeps a position already found; a position it finds lies at or after the start and carries the name sought, and the two positions found by one scan are distinct |
| MemoryZones.ScanFindsMergePair | src/MemoryZone.cpp:552-578 | the cursor loop of the merge action finds exactly the first zone with the first name and the first other zone with the second name |
| MemoryZones.ScanInvariant | src/MemoryZone.cpp:555-577 | the facts that hold after each step of the cursor loop are enough for the rest of the scan to find the reference pair |
| MemoryZones.MergeApply | src/MemoryZone.cpp:552-578 | when both names are found, the first zone absorbs the second, which is removed, and every other zone keeps its content and relative order; otherwise the zones are unchanged |
| MemoryZones.MergeApplyShrinks | src/MemoryZone.cpp:552-578 | the zone list shrinks by one exactly when two distinct zones carry the first and the second name |
| MemoryZones.PairFound | src/MemoryZone.cpp:555-576 | two distinct zones carrying the two names are always found |
| Registers.NewMemoryState | src/MemoryState.h:40-42 | a new memory state has no register set and no zone (also lines 121-122) |
| Registers.SetNumberOfRegisters | src/MemoryState.h:50-53 | only the register count changes |
| Registers.SetRegisterValue | src/MemoryState.h:54-66 | the register maps to the new value, the set of registers grows by that register only, and every other register keeps its value |
| Registers.GetRegisterValue | src/MemoryState.h:67-81 | the stored value when the register was set, a symbolic 32-bit top otherwise |
| Registers.GetAfterSet | src/MemoryState.h:54-81 | reading a register after setting it returns the value set |
| Registers.GetOtherAfterSet | src/MemoryState.h:54-81 | setting a register leaves the reading of every other register unchanged |
| Registers.SetTwice | src/MemoryState.h:54-66 | setting a register twice keeps only the second value |
| Registers.LoadValue | src/MemoryState.h:83-112 | every load returns a top of the requested size, whatever the address |
| Registers.StoreValue | src/MemoryState.h:113-118 | a store leaves the state unchanged |
| Registers.StoreIsInvisible | src/MemoryState.h:67-118 | no later register read or load observes a store |
| Registers.Contain | src/MemoryState.h:130 | every state is taken to contain every other one |
| Expressions.GetTypeExpression | src/Expression.h:31 | each node kind reports its own tag, and only that kind reports it (also lines 46, 62, 120, 173) |
| Expressions.GetType | src/Expression.h:30 | register accesses and indirections are integers; a domain node forwards its value's type; an operation node reports its stored type (also lines 45, 61, 119, 172) |
| Expressions.PlusAssign | src/Expression.h:191-195 | the result is a new signed-plus operation node of undefined type whose value, under any evaluation, is the sum of the two operands' values |
| Expressions.MinusAssign | src/Expression.h:186-190 | the same for the signed minus: the value is the difference of the operands' values |
| Expressions.MinusThenPlus | src/Expression.h:186-195 | subtracting an expression and adding it back restores the original value |
| Expressions.Clear | src/Expression.h:196 | a cleared expression has no content and no value |
| Expressions.TextFromArgument | src/Expression.cpp:27-37 | every node kind has a non-empty name |
| Expressions.NewNode | src/Expression.cpp:14-21 | the reader allocates a node of the requested kind |
| Expressions.ArgumentFromText | src/Expression.cpp:10-25 | a known kind name yields a new node of that kind and no diagnostic; any other text keeps the argument, records "unknown type for expression" and goes on only if the error limit allows it |
| Expressions.KindRoundTrip | src/Expression.cpp:10-37 | reading back the written kind name of a node yields a node of the same kind, with no diagnostic |
| Expressions.KindTextInjective | src/Expression.cpp:27-37 | distinct kinds have distinct names |
| JsonArguments.Ordinal | utils/JSON/JSonParser.h:528-531 | the fourteen event kinds keep their declaration order |
| JsonArguments.EventGroupsPartition | utils/JSON/JSonParser.h:593-609 | every event other than "undefined" is exactly one of: an opening, a closing, a key, or a scalar value; the scalar range holds the eight value events |
| JsonArguments.Fresh | utils/JSON/JSonParser.h:569-573 | a fresh accumulator has an empty message list, no error counted and does not stop on the first error |
| JsonArguments.AddErrorMessage | utils/JSON/JSonParser.h:852-859 | the counter grows by one; the message is appended with the current line and column (0 when unset) when a list exists; the reader may go on iff it does not stop on error, has a list, and fewer than 20 errors are counted |
| JsonArguments.ErrorCapAfterMessages | utils/JSON/JSonParser.h:852-859 | after n messages the count grows by n, the messages are kept in order, and the reader may go on iff fewer than 20 errors are counted in total |
| JsonArguments.PrefixKept | utils/JSON/JSonParser.h:854-858 | recording errors never rewrites the messages already recorded |
| JsonArguments.Shift | utils/JSON/JSonParser.h:840 | a shift raises the local stack height |
| JsonArguments.Reduce | utils/JSON/JSonParser.h:841 | a reduce needs a non-negative height and lowers it |
| JsonArguments.ClearRange | utils/JSON/JSonParser.h:862 | a cleared height is within the valid range |
| JsonArguments.ShiftsFromClearedRange | utils/JSON/JSonParser.h:840-862 | after a clear, n nested shifts reach height n, which stays valid exactly when n is at most 7 |
| JsonArguments.ToInt32 | utils/JSON/JSonParser.h:686-691 | storing a wider integer into the int member keeps it congruent modulo 2^32 and within the signed 32-bit range (also line 815) |
| JsonArguments.ConvertReaderToInt | utils/JSON/JSonParser.h:684-714 | the event always becomes an int event; ints stay as they are; null gives 0 and bool gives 0 or 1 without error; wider integers are narrowed to 32 bits; a pending number is read as an int, or truncated with "int value expected (not float)" when it is a float; any other event records "int value expected" and gives 0 |
| JsonArguments.ConvertIdempotent | utils/JSON/JSonParser.h:684-714 | converting an already converted event changes nothing |
| JsonArguments.ScalarEvent | utils/JSON/JSonParser.h:796-815 | every scalar value is delivered as one of the scalar value events |
| JsonArguments.ScalarToInt | utils/JSON/JSonParser.h:684-714 | an int scalar converts to its 32-bit value without error; a string scalar converts to 0 with one more error |
| JsonArguments.EventsBalanced | utils/JSON/JSonParser.h:782-822 | the event stream of every value closes each object and array it opens |
| ZoneActions.NewZoneAction | src/MemoryZone.h:76 | a fresh action exists exactly for the four defined kinds, and it has the requested kind |
| ZoneActions.UpdateField | src/MemoryZone.cpp:36-98 | handling one member never changes the kind of the action being read |
| ZoneActions.ReadMembers | src/MemoryZone.cpp:36-98 | reading an object's members keeps the action's kind |
| ZoneActions.ReadAction | src/MemoryZone.cpp:24-30 | an object is read through its members without diagnostics; any other value records "expected '{'", leaves the action as it was, and stops reading when the error limit is reached (also lines 177-183, 298-304, 451-457) |
| ZoneActions.LastValue | src/MemoryZone.cpp:36-98 | the value found is that of a member carrying the key, and nothing is found when no member carries it |
| ZoneActions.ReadMembersIsReference | src/MemoryZone.cpp:307-371 | whatever the order of the keys, each field ends up holding the value of the last member with its key or its initial value; reading succeeds exactly when no text key holds a container (also lines 36-98, 186-225, 460-499) |
| ZoneActions.WriteAction | src/MemoryZone.cpp:375-430 | each writer emits an object (also lines 104-156, 229-275, 503-549) |
| ZoneActions.WriteThenRead | src/MemoryZone.cpp:24-102 | writing an action and reading it into a fresh action of the same kind gives the action back, without any diagnostic (also lines 104-156) |
| ZoneActions.TypeMember | src/MemoryZone.cpp:627-639 | a string under "type" sets the current kind; another scalar leaves the reader's state unchanged; actions and diagnostics are unchanged |
| ZoneActions.ContentMember | src/MemoryZone.cpp:643-653 | under "content" a fresh action of the current kind is appended and read from the value; with no kind set there is no action to read into |
| ZoneActions.ReadObject | src/MemoryZone.cpp:617-658 | reading an object's members only appends actions, and does nothing once reading has stopped |
| ZoneActions.ReadElements | src/MemoryZone.cpp:606-661 | reading the array's elements only appends actions, and does nothing once reading has stopped |
| ZoneActions.ReadModifierWith | src/MemoryZone.cpp:598-604 | a value that is not an array yields no action and records "expected '['" |
| ZoneActions.ReadModifierAsWritten | src/MemoryZone.cpp:581-669 | the modifier reader as written: no action and "expected '['" for a value that is not an array |
| ZoneActions.ReadModifier | src/MemoryZone.cpp:581-669 | the corrected modifier reader: the same error case |
| ZoneActions.ReadObjectCounts | src/MemoryZone.cpp:643-653 | a complete read of an object appends one action per "content" member |
| ZoneActions.ReadElementsCounts | src/MemoryZone.cpp:606-661 | a complete read of the elements appends one action per "content" member over all objects |
| ZoneActions.OneActionPerContent | src/MemoryZone.cpp:581-669 | a modifier read to the end holds exactly one action per "content" member |
| ZoneActions.ActionEntries | src/MemoryZone.cpp:690-731 | one entry per action, in order |
| ZoneActions.WriteModifier | src/MemoryZone.cpp:672-737 | the corrected writer emits an array with one entry per action |
| ZoneActions.WriteModifierAsWritten | src/MemoryZone.cpp:672-737 | the writer as written emits a stream that starts by opening the array and ends by closing it |
| ZoneActions.UnclosedEntriesBalance | src/MemoryZone.cpp:690-731 | each action's entry leaves exactly one object open |
| ZoneActions.ModifierWriterUnbalanced | src/MemoryZone.cpp:690-731 | the writer as written leaves one object open per action, while the corrected writer's output closes everything it opens |
| ZoneActions.ReadEntry | src/MemoryZone.cpp:617-658 | reading one written entry appends exactly its action (also lines 700-731) |
| ZoneActions.ReadEntries | src/MemoryZone.cpp:606-661 | reading the written entries appends exactly the actions, in order, without diagnostics (also lines 690-731) |
| ZoneActions.ModifierRoundTrip | src/MemoryZone.cpp:581-737 | writing a modifier with each object closed and reading it back gives the same actions in order and no diagnostic, with both the corrected reader and the reader as written |
| ZoneActions.TypeLastCounterexample | src/MemoryZone.cpp:627-639 | when an object puts "type" after "content", the reader as written steps over the object's closing brace, while the corrected reader reads both actions |
| Contracts.TextFromLocalization | src/Contract.h:126-135 | the three localizations have their names; a localization never read gives the empty text, and only it does |
| Contracts.SetLocalizationFromText | src/Contract.h:113-125 | exactly "before", "after" and "between" succeed, and each sets the localization whose name it is; any other text fails and leaves the localization unchanged |
| Contracts.LocalizationRoundTrip | src/Contract.h:113-135 | reading back the name of a localization gives the same localization and succeeds |
| Contracts.EmptyResolver | src/Contract.h:177-189 | a graph starts reading with an empty id map, no pending id and no filled reference |
| Contracts.LowerBound | src/Contract.h:65-84 | the lower bound is the first pending entry whose id is not below the one sought |
| Contracts.RemoveEntry | src/Contract.h:64-78 | erasing one entry of a sorted pending list keeps it sorted and shifts the later entries down by one, every other entry unchanged |
| Contracts.InsertEntry | src/Contract.h:79-89 | inserting an entry where its id falls keeps the pending list sorted |
| Contracts.PendingIdAtLowerBound | src/Contract.h:79-89 | in a sorted pending list, an entry with the id sits exactly at the lower bound, and with only smaller ids the lower bound is the end |
| Contracts.LowerBoundFinds | src/Contract.h:65-85 | in the sorted pending list an entry carrying the id sits exactly at the lower bound |
| Contracts.BindAll | src/Contract.h:71-74 | every queued reference is filled with the contract, and every other reference keeps its content |
| Contracts.SetContractId | src/Contract.h:64-78 | an id already registered is refused and nothing changes; otherwise the id is mapped to the contract, every reference queued under it is filled with the contract, that pending entry is erased, and the other pending entries stay as they were, in order |
| Contracts.LookForContractIdAsWritten | src/Contract.h:79-89 | as written: a registered id fills the reference at once; otherwise the registered ids and filled cells stay as they were and the pending list stays sorted; an id already pending gets the reference appended to its own list; an id above every pending id gets a new entry at the end holding only the reference; but when a larger id is pending and the id itself is not, the reference is appended to the larger id's list |
| Contracts.LookForContractId | src/Contract.h:79-89 | corrected: a registered id fills the reference at once; otherwise the registered ids and filled cells stay as they were, the pending list stays sorted, and the reference always joins its own id's list: appended to the existing entry, every other entry unchanged, or in a new entry inserted at one position with all other entries kept in order |
| Contracts.ForwardReferenceResolved | src/Contract.h:64-89 | with the corrected lookup, a reference to a contract read later is filled with that contract once its id is registered |
| Contracts.LookForCounterexample | src/Contract.h:84-87 | as written, a reference to id 3 made while id 5 is pending stays unfilled when 3 is registered, and is filled with contract 5 instead |
| Contracts.NewContract | src/Contract.h:102-140 | a fresh contract has no edge, no parent, and is not valid |
| Contracts.Key | src/Contract.h:27-34 | contracts are keyed by their address |
| Contracts.ReadEdges | src/Contract.cpp:64-81 | each scalar element appends exactly one edge to its own list and nothing to the other list; containers are skipped; the id map and the contract's other fields are unchanged (also lines 103-120) |
| Contracts.ReadMember | src/Contract.cpp:49-252 | "nexts" and "previouses" add one edge per scalar element of an array; an integer "id" sets the id and registers the contract when the id is new; a "localization" string sets the localization, or records "invalid localization"; as written "address" is never stored, corrected it stores the document integer read as an unsigned 64-bit value, with no 32-bit truncation; unknown keys change nothing |
| Contracts.ReadMembers | src/Contract.cpp:42-256 | a complete read of the members counts one next edge per scalar under "nexts" and one previous edge per scalar under "previouses" |
| Contracts.FinishContract | src/Contract.cpp:259-267 | at the end of the object a valid contract is left as it is, and an invalid one records "contract is not complete" |
| Contracts.ReadContractWith | src/Contract.cpp:5-268 | a value that is not an object records "expected '{'"; a complete read holds one edge per scalar of the edge arrays; the contract never gets a parent; as written it is never valid |
| Contracts.ReadContractAsWritten | src/Contract.cpp:176-189 | the reader as written never stores an address, so no contract it reads is valid |
| Contracts.ReadContract | src/Contract.cpp:5-268 | the corrected reader counts the edges the same way |
| Contracts.AddressCounterexample | src/Contract.cpp:176-189 | an object with id 1 and address 4096 is a complete, valid contract for the corrected reader, while the reader as written reports "contract is not complete" (also lines 259-267) |
| Contracts.EdgeIds | src/Contract.cpp:323-338 | the writer emits an integer for each filled edge and skips the references still waiting for their contract (also lines 355-370) |
| Contracts.WriteContractWith | src/Contract.cpp:271-443 | the writer emits an object with at least seven members |
| Contracts.WriteContractAsWritten | src/Contract.cpp:312-347 | as written, "nexts" occurs twice and "previouses" never |
| Contracts.WriteContract | src/Contract.cpp:312-347 | corrected, each edge key occurs once |
| Contracts.DominatorWrittenIffSet | src/Contract.cpp:376-387 | "dominator" is written exactly when the dominator is set |
| Contracts.WriteThenReadEdges | src/Contract.cpp:312-372 | reading back a written contract gives one edge per filled reference; as written the previous edges come back as next edges and no previous edge is left (also lines 64-120) |
| Contracts.EmptyGraph | src/Contract.h:175-202 | a new graph has no contract, no initial and no final contract |
| Contracts.ReadContracts | src/Contract.cpp:528-557 | each object of the contracts array inserts exactly one new contract after the existing ones; arrays and scalars are skipped |
| Contracts.ReadGraphMember | src/Contract.cpp:504-558 | an array member inserts one contract per object and keeps those already read; as written "alloc-shift" is never stored, corrected it stores the document integer read as an unsigned 64-bit value, with no 32-bit truncation |
| Contracts.ReadGraphMembers | src/Contract.cpp:495-561 | a complete read inserts one contract per object over all the arrays of the graph object |
| Contracts.ReadGraphWith | src/Contract.cpp:469-566 | a value that is not an object records "expected '{'"; one contract is inserted per object; no contract is initial or final, because reading never sets them |
| Contracts.ReadGraphAsWritten | src/Contract.cpp:469-566 | no contract of a graph read as written is valid |
| Contracts.ReadGraph | src/Contract.cpp:469-566 | the corrected graph reader inserts one contract per object |
| Contracts.DominatorOf | src/Contract.cpp:459-461 | a contract's dominator is defined exactly when its dominator reference is filled |
| Contracts.ApplicationOrder | src/Contract.cpp:455-466 | the order found is a dominator chain ending at the contract, starting at a contract without dominator |
| Contracts.ChainNoRepeat | src/Contract.cpp:455-466 | a dominator chain never repeats a contract, so each is applied exactly once |
| Contracts.ChainFound | src/Contract.cpp:457-462 | every acyclic chain is found once the bound covers its length |
| Contracts.CycleHasNoOrder | src/Contract.cpp:459-462 | from a contract on a dominator cycle no order exists whatever the bound, since the loop there does not end |
| Contracts.ApplyOneTo | src/Contract.cpp:447-452 | the zone modifier acts on the zones first, leaving the registers alone, and the memory constraints then act on the resulting state |
| Contracts.ApplyInOrderSnoc | src/Contract.cpp:463-465 | applying an order and then one more contract is applying the longer order |
| Contracts.ApplyTo | src/Contract.cpp:454-466 | a result exists exactly when the dominator chain is finite within the bound; it applies the dominators farthest first, then the contract itself |
| Contracts.AddConnection | src/Contract.h:262-263 | exactly one connection (origin, target) is appended and the earlier ones are kept |
| Contracts.IsCoverageComplete | src/Contract.h:264 | completeness holds for every coverage |
| Processor.CreateAddressVector | src/contract_checker.cpp:246-252 | a new vector has two zero slots, array size 2 and no address in use |
| Processor.FreeAddressVector | src/contract_checker.cpp:254-259 | a freed vector has no container, size 0 and length 0 |
| Processor.NewArraySize | src/contract_checker.cpp:237-240 | the new size is 6 below six and otherwise the old size times 3/2 rounded down; it is always at least 6 and larger than the old size |
| Processor.ReallocAddresses | src/contract_checker.cpp:232-243 | the container, which must hold exactly the old size, keeps its content and is extended with zeros up to exactly the new size |
| Processor.StoreTargets | src/contract_checker.cpp:232-243 | a plugin storing n successors grows the vector through reallocation until they fit; they fill the first slots and become its length, and the other slots keep what they held or are zero |
| Processor.ReallocationsGrow | src/contract_checker.cpp:237-240 | each reallocation adds at least one slot, so any number of successors eventually fits |
| Processor.FreshVectorGrowth | src/contract_checker.cpp:237-252 | from a fresh vector, reallocation gives 6, then 9, then 13 slots |
| Processor.ReadSome | src/Processor.cpp:123-129 | a failed seek gives nothing; otherwise at most 1000 bytes, a prefix of what the file holds from the address, and all of it when fewer than 1000 are available |
| Processor.WalkFrom | src/Processor.cpp:142-167 | a false isValid verdict from the plugin is the abort of AssumeCondition(isValid), and needs a non-empty buffer and fuel; a true return leaves zero or several successors, or just the stop address; a false return means the buffer was used up, with the vector as it was on entry or emptied |
| Processor.RetrieveNextTargets | src/Processor.cpp:120-168 | a failed seek or an empty read returns false with the vector untouched; when the plugin rejects the first instruction the retrieval aborts; a true return ends on the stop address, which is the single entry address when the vector held exactly one and 0 otherwise, or on zero or several successors |
| Processor.ForwardWalkEnds | src/Processor.cpp:142-167 | with a plugin whose single successors always lie ahead, the walk returns after at most as many calls as bytes remain |
| Processor.WalkStep | src/Processor.cpp:142-167 | a false isValid verdict aborts; a single successor equal to the stop address returns true; a single successor elsewhere advances by the distance to it with an empty vector and in the memory state the plugin left; zero or several successors return true with those targets |
| Processor.InterpretLoop | src/Processor.cpp:186-196 | the loop returns the plugin's state as soon as the plugin reports the target reached |
| Processor.InterpretLoopFirstReach | src/Processor.cpp:186-196 | when the k-th call is the first to report the target reached and the fuel allows it, the loop returns the memory state that call leaves |
| Processor.InterpretLoopMisses | src/Processor.cpp:186-196 | the loop runs out of fuel exactly when none of the calls the fuel allows reports the target reached |
| Processor.Interpret | src/Processor.cpp:171-181 | a failed seek or an empty read leaves the memory state as it was |
| Processor.InterpretNeedsPlugin | src/Processor.cpp:186-196 | the loop never moves the instruction pointer, so if the plugin never reports the target from this address, interpretation runs out of any bound |
| Processor.InterpretFirstCall | src/Processor.cpp:171-196 | a plugin that reports the target at the first call ends interpretation with its state |
| Checker.SetToNext | src/contract_checker.cpp:106-110 | from before the start the cursor moves to the first contract, from a contract to the next one, and past the last it becomes invalid |
| Checker.Advance | src/check_contract.py:61 | after at least one move, a valid cursor designates a contract of the graph |
| Checker.CursorVisitsInOrder | src/check_contract.py:61 | from before the start, successive moves visit the contracts in order, each once, and the cursor is invalid after the last |
| Checker.PositionOf | src/contract_checker.cpp:132-134 | a precondition (0) locates before the address, a postcondition (1) after it, anything else neither |
| Checker.FindKey | src/contract_checker.cpp:132 | the contract found is the first one at the address, and none is found only when no contract sits there |
| Checker.LastBelow | src/contract_checker.cpp:132-133 | the contract found is the last one whose address lies below the requested one |
| Checker.FirstAbove | src/contract_checker.cpp:132-134 | the contract found is the first one whose address lies above the requested one |
| Checker.LocateKey | src/contract_checker.cpp:131-135 | on contracts in address order, as the sorted array keeps them: a contract at the address is found whenever one exists; otherwise the contract found lies below the address for "before" and above it for "after", and nothing is found for "undefined" or when no contract lies on the requested side |
| Checker.SetAddress | src/contract_checker.cpp:124-136 | on contracts in address order: when the next contract already sits at the address the cursor stays there; otherwise the cursor is located by key, the result is whether it is valid, and a contract found elsewhere than at the address lies before it for a precondition and after it for a postcondition |
| Checker.SetAfterMissesAbsentAddress | src/contract_checker.cpp:124-136 | positioned after an address no contract sits at, the cursor is never at that address, so the driver's assertion that it is fails |
| Checker.ContractState | src/contract_checker.cpp:52-76 | a state exists exactly when the dominator chain is finite within the bound; for a contract without dominator it is the initialized state with that contract applied |
| Checker.GetTargets | src/contract_checker.cpp:47-58 | the contract is applied to a fresh initialized state before the block is walked; an unreachable or empty block returns false with the vector untouched; a true verdict ends on the stop address or on zero or several successors |
| Checker.CheckBlockWith | src/contract_checker.cpp:60-80 | the check completes exactly when both contract states exist, interpretation finishes, and a coverage is given (as written); the connection (first, last) is recorded whatever is reached; the expected state is the last contract's own state; the verdict is the containment test, which always holds |
| Checker.CoverageIndependentOfInterpretation | src/contract_checker.cpp:73-78 | the coverage recorded does not depend on what interpretation reaches |
| Checker.InitialDriverState | src/check_contract.py:45-60 | the loop starts before the first contract, with no initial or final contract, all_valid true, no connection and no message |
| Checker.CheckTargets | src/check_contract.py:82-107 | the inner loop records one connection per target it checks, keeps the earlier ones and changes nothing else in the loop's variables; it stops early only on an invalid cursor, a cursor that is not at the target, or exhausted fuel |
| Checker.WithProperty | src/check_contract.py:124-127 | the property contract is added after the others, without dominator, and the graph stays well formed |
| Checker.CheckProperty | src/check_contract.py:123-147 | as written the check stops at once with the TypeError of `Contract(processor)`, the cursor unmoved; corrected the cursor is set before the property's address, on the contract there when there is one, a halt is never that TypeError, and a completed check proves the property |
| Checker.PropertyTypeErrorAsWritten | src/check_contract.py:123-127 | as written, with the property at 100 in the two-contract graph, the first pass of the loop reports the coverage and the run then ends with the TypeError |
| Checker.ReportsOf | src/check_contract.py:111-121 | as written only "contract coverage fully verified" is printed; corrected, a missing initial or final contract is reported before it |
| Checker.Report | src/check_contract.py:111-147 | the reports come first, then the property verdict when there is a property |
| Checker.Visit | src/check_contract.py:67-147 | an initial contract is recorded as first; a final one is recorded as last and nothing else happens; all_valid never changes; as written the reports are printed inside the loop |
| Checker.Finish | src/check_contract.py:148-151 | the last message is "all contracts have been verified!" when all_valid holds and "some contracts have failed!" otherwise; corrected, the reports and property check come once, before it |
| Checker.Run | src/check_contract.py:60-151 | all_valid keeps its value through the loop, the last message follows it, and as written no missing-contract report or property verdict is ever printed; corrected, the messages end with the reports, the property verdict when there is a property, and the final verdict, in that order |
| Checker.Continue | src/check_contract.py:107-109 | whatever the pass did, all_valid is kept and the last message follows it; as written no missing-contract report or property verdict is added; corrected, the reports, the property verdict and the final verdict follow the messages printed so far (also lines 61, 72) |
| Checker.Driver | src/check_contract.py:45-151 | all_valid is still true at the end of the run |
| Checker.AsWrittenDriverSilent | src/check_contract.py:111-146 | as written the run never prints "no initial contract found", "no final contract found", or a verdict on the property |
| Checker.CorrectedDriverReportsMissing | src/check_contract.py:111-115 | corrected, a finished run reports a missing initial or final contract exactly when the loop met none |
| Checker.ReportsInLoopAsWritten | src/check_contract.py:111-121 | as written, in a graph of two contracts the coverage verdict is printed once per contract visited |
| Checker.ReportsAfterLoop | src/check_contract.py:111-121 | corrected, the coverage verdict is printed once, after the loop |
| Checker.PropertyAfterLoop | src/check_contract.py:123-146 | corrected, with the property at 100 in the two-contract graph, the run reports the missing initial and final contracts, the coverage once, "property is proved" once after the loop, and the final verdict |
| ExprLexer.IsCharDigit | src/Expression.cpp:738-744 | context 0 accepts the decimal digits, 1 only '0' and '1', 2 the octal digits, 3 the hexadecimal digits in both cases, and any other context accepts nothing |
| ExprLexer.DigitContextsNested | src/Expression.cpp:738-744 | a binary digit is octal, an octal digit is decimal, and a decimal digit is hexadecimal |
| ExprLexer.PunctuatorRoundTrip | src/Expression.cpp:635-690 | each of the nine single-character tokens - + ( ) { } [ ] , is recognised from its own character |
| ExprLexer.SkipSpaces | src/Expression.cpp:626-628 | the position reached is the first one that is not white space, with only white space before it |
| ExprLexer.AddErrorAt | src/Expression.cpp:590-596 | the error is recorded at the current column plus the shift, and the column is the same afterwards |
| ExprLexer.ReadMain | src/Expression.cpp:621-734 | an empty or all-white-space chunk finishes without an error; a punctuator is consumed and yields its token; a number or identifier start is left unconsumed for the next reader; any other character records "unknown character" and continues only while errors are still accepted |
| ExprLexer.ClassifyStarts | src/Expression.cpp:676-728 | 0x/0X selects hexadecimal, 0b/0B binary, 0 then an octal digit octal; another digit, or '.' followed by a digit, a decimal number; a letter or '_' an identifier; everything else that is not a punctuator is unknown |
| ExprLexer.ReadMainSkipsSpaces | src/Expression.cpp:626-632 | leading white space does not change the token found, only where it starts |
| ExprLexer.KeywordTableRoundTrip | src/Expression.cpp:606-617 | the table maps the spelling of each of the eleven keywords to that keyword, so no spelling appears twice |
| ExprLexer.KeywordOf | src/Expression.cpp:606-617 | a text found in the keyword table is exactly that keyword's text |
| ExprLexer.LastNonDigit | src/Expression.cpp:876-882 | the backward scan stops on the last character before the position that is not a digit, with only digits after it |
| ExprLexer.ExtensionStart | src/Expression.cpp:876-899 | corrected, a size suffix found inside the identifier starts with '_' and is not empty |
| ExprLexer.CorrectedSuffixShape | src/Expression.cpp:876-899 | corrected, the suffix found is '_' and a run of digits, followed by nothing or by a second '_' |
| ExprLexer.SizedFromSuffix | src/Expression.cpp:900-931 | a keyword stays a keyword: plain exactly when there is no suffix, sized or float-sized otherwise, always of the same keyword; a suffix that does not start with '_' fails the assumption |
| ExprLexer.ReadIdentifier | src/Expression.cpp:853-947 | the result is a plain identifier, with the whole word as text, exactly when the part before the suffix is not in the keyword table |
| ExprLexer.SizedKeywordRoundTrip | src/Expression.cpp:900-931 | a keyword spelling followed by "_" and digits reads back as that keyword sized by the digits' value, both as written and corrected |
| ExprLexer.FloatSizedKeywordRoundTrip | src/Expression.cpp:900-920 | a keyword spelling followed by "_N_M" reads back as that keyword float-sized (N, M), both as written and corrected |
| ExprLexer.NonKeywordStaysIdentifier | src/Expression.cpp:934-946 | a word that is not a keyword and does not end in a digit stays a plain identifier |
| ExprLexer.SuffixCounterexample | src/Expression.cpp:885-904 | as written "U8_16" takes its suffix to start on the '8', looks up "U" and fails the assumption that the suffix starts with '_'; corrected it stays the identifier "U8_16" |
| ExprLexer.CorrectedNeverFails | src/Expression.cpp:885-904 | with the suffix starting at the '_', no identifier fails that assumption |
| ExprLexer.DomainAndQualifierDisjoint | src/Expression.cpp:524-541 | isDomain holds exactly for the Top and TopBit keywords in any form, sized or not, and never together with isQualifier; a plain identifier is neither |
| ExprOperators.OperatorTableConsistent | src/Expression.cpp:1273-1297 | setType accepts exactly unary plus, unary minus, merge and the interval; the unary operators bind at unary precedence, right-associative, with one argument; merge binds loosest, left-associative, with two; the interval is postfix with none applied here; a named operator takes arguments (also lines 1249-1257) |
| ExprOperators.OperatorNamesDistinct | src/Expression.cpp:1260-1270 | the operators that have a name ("+", "-", "vv") are told apart by it |
| ExprOperators.NewOperator | src/Expression.cpp:1273-1297 | an operator is created exactly when its type has a defined precedence and fewer than four sub-expressions are expected; it starts with both argument slots empty (also lines 1217-1220, 1329-1341) |
| ExprOperators.AbsorbLast | src/Expression.cpp:1228-1248 | the value goes to one slot and one sub-expression less is expected, only when one was expected; corrected, it fills the first slot when that is empty and the second otherwise; as written it overwrites a taken first slot |
| ExprOperators.ExtractLast | src/Expression.cpp:1170-1173 | the second argument is taken when present, the first otherwise, leaving that slot empty, and one more sub-expression is expected (also lines 1221-1224) |
| ExprOperators.Apply | src/Expression.cpp:1387-1494 | unary plus returns its argument; unary minus negates integer and floating-point values and records one error for any other kind; two arguments of different kinds record "arguments have incompatible types" and return the first; merge of two values of the same arithmetic kind is their merge |
| ExprOperators.PushPrefix | src/Expression.cpp:1329-1348 | the new operator is appended on top and nothing else changes, exactly when it can be created |
| ExprOperators.PushLastArgument | src/Expression.cpp:1316-1323 | on an empty stack the placeholder expects no sub-expression, so the absorption aborts; otherwise the push succeeds exactly when the innermost operator still expects a sub-expression, and then it absorbs the value while the operators beneath and the diagnostics are unchanged |
| ExprOperators.Reduce | src/Expression.cpp:1504-1533 | the new operator ends on top with at most one operator added; when the innermost operator does not bind tighter, it gives up its last argument as the new operator's first and the diagnostics are unchanged |
| ExprOperators.ReduceTop | src/Expression.cpp:1512-1527 | one pass of the reduction loop leaves at least the incoming operator on the stack, on top, and at most one operator more than before |
| ExprOperators.Stop | src/Expression.cpp:1526-1533 | a carried value becomes the new operator's first argument; otherwise the innermost operator's last argument does; the new operator is pushed on top |
| ExprOperators.PushOperator | src/Expression.cpp:1496-1536 | a placeholder on top takes the operator's type and expected count in place; otherwise the new operator ends on top |
| ExprOperators.ClearFrom | src/Expression.cpp:1550-1563 | with no operator left the value carried so far is the result; an innermost operator still waiting for a sub-expression beyond the one carried into it ends the clear with no value and records "unexpected end of expression"; a value comes out only when every outer operator was waiting for exactly one more sub-expression and the innermost for one when a value is carried into it, none otherwise |
| ExprOperators.Clear | src/Expression.cpp:1537-1563 | a lone placeholder gives back its last argument; on any other stack an unfinished innermost operator gives no value and records "unexpected end of expression", and a value comes out only when its innermost operator is finished and every other was waiting for exactly one more sub-expression |
| ExprOperators.ClearInnermostFirst | src/Expression.cpp:1548-1563 | for any split of the stack into outer and inner operators, clearing the whole equals clearing the inner part and then the outer part from the value it produced; a failure of the inner part is the result |
| ExprOperators.UnfinishedOperatorEndsExpression | src/Expression.cpp:1553-1557 | an operator still waiting for two or more sub-expressions, once the operators inside it give a value, ends the expression with no value and records "unexpected end of expression", whatever lies outside it |
| ExprOperators.ExpressionValue | src/Expression.cpp:1496-1563 | corrected, over a domain of integers, any expression of signed terms joined by "vv", read through the operator stack, has the value of its tree: each term's signs applied innermost first, merges associated to the left, and no diagnostic recorded |
| ExprOperators.MergeLosesFirstArgument | src/Expression.cpp:1429-1435 | as written, "a vv b" on two integers loses a: the application reports incompatible types and returns b; corrected, it returns the merge of a and b with no error (also lines 1244-1248) |
| ExprOperators.NegationUnaffected | src/Expression.cpp:1402-1417 | "-a" on an integer negates it, as written and corrected, because a prefix operator's first slot is empty (also lines 1244-1248) |
| ExprOperators.MergeChainLeftAssociative | src/Expression.cpp:1496-1536 | corrected, "a vv b vv c" reduces the first merge when the second is pushed and yields (a vv b) vv c |
| ExprOperators.TypeField | src/Expression.cpp:2503-2504 | as written the switch value is the low bit of the code; corrected it is the seven-bit type field |
| ExprOperators.SetCodeFromText | src/Expression.cpp:2407-2584 | without a first argument the node is kept and the missing-argument error recorded; the node changes only for a text found in the table; a node set on a run that goes on has the symbolic flag of bit 8 of the code |
| ExprOperators.FoundCodeReportedUnknown | src/Expression.cpp:2497-2583 | as written, a text found in the table with an extended code still records "unknown operation" |
| ExprOperators.FoundCodeSetsFields | src/Expression.cpp:2578-2581 | corrected, a found extended code sets the node's operation code and symbolic flag and records nothing |
| ExprOperators.TypeFieldAlwaysUndefined | src/Expression.cpp:2503-2576 | as written, a non-extended code always selects no case: operation code 0, then "operation not in adequation with the types of operands" and "unknown operation" |
| ExprOperators.TypeFieldSelectsCase | src/Expression.cpp:2503-2576 | corrected, the type field selects the case, and a case that fits the operands sets the operation code and symbolic flag without error |
| ExprOperators.UnknownTextReported | src/Expression.cpp:2582-2584 | a text missing from the table records "unknown operation" once and leaves the node unchanged, as written and corrected (also lines 2497-2498) |
| ExprOperators.TableCodeReadBack | src/Expression.cpp:2425-2584 | corrected, for every table entry built from an extended flag, a type and a symbolic flag, the text reads back into them: an extended entry sets its own code and the flag, another entry the operation its type resolves to, or records the type-mismatch error when none fits; nothing else is recorded |
| JsonLexer.NumberFlags | utils/JSON/JSonLexer.h:94-114 | isInteger is exactly not isFloat; setFloat makes a number a float and setNegative makes it negative, each leaving the other flag alone; a coding is special exactly when a setter chose one; a fresh number has no special coding |
| JsonLexer.CreateContent | utils/JSON/JSonLexer.cpp:65-76 | content is allocated only for a number or a string token, and it is an empty content of that type |
| JsonLexer.FromContent | utils/JSON/JSonLexer.h:123-142 | a token built from content owns it and takes its type; it is valid exactly when that type is defined |
| JsonLexer.Transfer | utils/JSON/JSonLexer.h:128-140 | a copy gets the source's type and content; a source that holds content is left with the undefined type |
| JsonLexer.TransferMovesOwnership | utils/JSON/JSonLexer.h:128-140 | after a transfer only the copy of a token with content is valid, and transferring again hands the same token on |
| JsonLexer.InitialLexer | utils/JSON/JSonLexer.h:210-211 | a new lexer is in the main state with no pending sub-state, context 0, an undefined token and the full-token mode |
| JsonLexer.ModesExclusive | utils/JSON/JSonLexer.h:216-219 | after setFullToken or setPartialToken exactly one of isFullToken and isPartialToken holds, and the last setter wins |
| JsonLexer.Clear | utils/JSON/JSonLexer.h:314-320 | clear returns to the main state with no pending sub-state, context 0, an empty current text and an undefined token, keeping the mode |
| JsonLexer.SkipWhitespace | utils/JSON/JSonLexer.cpp:479-489 | the scan stops on the first character that is not white space, with only white space before it |
| JsonLexer.WhitespacePosition | utils/JSON/JSonLexer.cpp:479-488 | the position after the skipped white space counts one more line per newline, with the column reset to 1, and one more column per other character |
| JsonLexer.JsonDigit | utils/JSON/JSonLexer.cpp:184-190 | context 0 accepts the decimal digits, binary only '0' and '1', octal the octal digits, hexadecimal the hexadecimal digits; any other context accepts nothing |
| JsonLexer.MakeNumber | utils/JSON/JSonLexer.cpp:330-350 | the token's text is the text read; it is a float exactly when the context reached the fractional stage, negative exactly when the context holds the negative bits, and its coding is the context's format |
| JsonLexer.ReadNumber | utils/JSON/JSonLexer.cpp:195-363 | at the end of the input the read finishes without a token; otherwise it yields a number token, never throws, stays on the line, and outside a sign context the token's text is what was read |
| JsonLexer.ReadAlpha | utils/JSON/JSonLexer.cpp:366-394 | a token comes out exactly when the word is true, false or null in any letter case, and it has that type and no content; any other word throws; the column advances by the word's length |
| JsonLexer.ReadString | utils/JSON/JSonLexer.cpp:397-471 | the string is the text up to the next '"', taken as it is with no escape processing, and reading continues after that quote; an unterminated string runs to the end; the column advances by the characters consumed |
| JsonLexer.StructuralType | utils/JSON/JSonLexer.cpp:494-525 | exactly the six characters [ ] { } , : are structural, each with its own token type |
| JsonLexer.StructuralRoundTrip | utils/JSON/JSonLexer.cpp:494-525 | structural characters and their token types correspond one to one |
| JsonLexer.ReadMain | utils/JSON/JSonLexer.cpp:473-609 | after the white space, the input finishes exactly at its end; a structural character yields its token and moves one column; a character that starts no token throws |
| JsonLexer.ReadNumberStart | utils/JSON/JSonLexer.cpp:526-591 | a number that starts with a digit or a sign yields a number token and consumes at least one character |
| JsonLexer.NumberProgress | utils/JSON/JSonLexer.cpp:277-284 | a number that starts with a digit yields a token that consumes at least that digit (also lines 584-591) |
| JsonLexer.Tokenize | utils/JSON/JSonLexer.cpp:473-609 | reading tokens to the end of a complete input stops only when it finishes or throws |
| JsonLexer.ReadMainDigit | utils/JSON/JSonLexer.cpp:582-591 | a digit that starts no prefix hands the number, unconsumed, to readNumberToken in the bare context |
| JsonLexer.ReadMainSign | utils/JSON/JSonLexer.cpp:569-581 | a sign is consumed and the rest is read in the positive or negative context, with the sign as the text so far |
| JsonLexer.ReadNumberSigned | utils/JSON/JSonLexer.cpp:277-363 | after a sign, blanks are skipped, a "0x", "0b" or octal "0" selects the format, and the token's text is the sign followed by everything read (also lines 204-220) |
| JsonLexer.FractionSplitsAsWritten | utils/JSON/JSonLexer.cpp:285-290 | with the constants as written, "1.5" lexes as the binary-coded float "1." followed by the integer "5" (also lines 180-181) |
| JsonLexer.FractionIntended | utils/JSON/JSonLexer.cpp:285-290 | with stage constants that keep clear of the format bits, "1.5" is the single float "1.5" |
| JsonLexer.ExponentSignSplitsAsWritten | utils/JSON/JSonLexer.cpp:291-300 | with the constants as written, "1e+5" lexes as "1e", flagged negative and octal, followed by "+5" (also lines 180-181) |
| JsonLexer.ExponentSignIntended | utils/JSON/JSonLexer.cpp:291-303 | with the intended constants, "1e+5" is the single float "1e+5" |
| JsonLexer.MinusTenHexadecimalAsWritten | utils/JSON/JSonLexer.cpp:337-345 | as written "-10" is flagged hexadecimal (also lines 180-181) |
| JsonLexer.MinusTenIntended | utils/JSON/JSonLexer.cpp:337-345 | with the intended constants "-10" is a negative integer without special coding |
| JsonLexer.PlusHexNegativeAsWritten | utils/JSON/JSonLexer.cpp:209-212 | as written "+0x1" is flagged negative (also lines 180-181, 344-345) |
| JsonLexer.PlusHexIntended | utils/JSON/JSonLexer.cpp:209-212 | with the intended constants "+0x1" is a positive hexadecimal integer (also lines 344-345) |
| JsonLexer.SubTypeFromContent | utils/JSON/JSonLexer.cpp:79-88 | a leading '-' makes the number negative and a leading '+' positive; the text and the coding are kept |
| JsonLexer.ScanKeepsNibble | utils/JSON/JSonLexer.cpp:277-303 | with the intended constants the scan keeps the sign and format bits and only moves the stage |
| JsonLexer.DecimalScanFloat | utils/JSON/JSonLexer.cpp:277-303 | a decimal scan reaches a float stage exactly when it passes a '.', 'e' or 'E' |
| JsonLexer.NumberFlagsAgreeWithText | utils/JSON/JSonLexer.cpp:330-350 | with the intended constants, every number readMain yields has the negative flag setSubTypeFromContent gives its text, the coding its prefix announces and, for a decimal number, the float flag of its text (also lines 79-88) |
| JsonLexer.WrittenFlagsDisagree | utils/JSON/JSonLexer.cpp:330-350 | with the constants as written, the flags of "+0x1" disagree with its text (also lines 79-88) |
| JsonParser.ReadBit | utils/JSON/JSonParser.h:364-370 | a bit beyond the storage reads as false |
| JsonParser.Grown | utils/JSON/JSonParser.h:381-390 | zero cells are appended, and the existing cells kept, until the storage covers the bit; as written that is index*32+1 cells, corrected index/32+1; storage that already covers the bit is unchanged |
| JsonParser.SetBit | utils/JSON/JSonParser.h:372-394 | setting or clearing a bit leaves the storage exactly as large as the growth step makes it |
| JsonParser.ReadOwnBit | utils/JSON/JSonParser.h:364-394 | a bit reads back as it was last set |
| JsonParser.ReadOtherBit | utils/JSON/JSonParser.h:364-394 | setting a bit leaves every other bit as it was |
| JsonParser.SetBitWellFormed | utils/JSON/JSonParser.h:364-394 | every set bit stays where a read can see it |
| JsonParser.Bits | utils/JSON/JSonParser.h:364-370 | the set of positions that read as true |
| JsonParser.BitsOfSetBit | utils/JSON/JSonParser.h:364-394 | under either comparison the cells implement a set of positions: setTrueBitArray adds the position, setFalseBitArray removes it, and nothing else changes |
| JsonParser.EmptyBits | utils/JSON/JSonParser.h:361-370 | an empty array has no bit set |
| JsonParser.OverAllocationAsWritten | utils/JSON/JSonParser.h:381-383 | as written, setting bit 3 of an empty array allocates 97 cells where 1 is enough |
| JsonParser.StorageIsTight | utils/JSON/JSonParser.h:381-383 | corrected, the storage grows to exactly the cell of the highest bit set |
| JsonParser.EnterExitLaws | utils/JSON/JSonParser.h:423-437 | entering an array marks the new level as an array; entering an object leaves it unmarked; exiting lowers the level and reports whether it reached 0; exiting what was just entered restores the state |
| JsonParser.ObjectExitKeepsArrayMark | utils/JSON/JSonParser.h:427-432 | exitObject does not clear the level's mark, so after an array is closed by '}' the next '{' at that level is taken for an array |
| JsonParser.ParseStep | utils/JSON/JSonParser.cpp:743-883 | '{' and '[' enter a level, with an error exactly when a key is expected or a key was just read; '}' and ']' leave a level, abort at level 0, finish when level 0 is reached, and complain unless at the start of a value; ':' is accepted only after a key; ',' only at the start of a value; a string is a key at the start of an object member; a scalar is accepted only after a colon or as an array element; a step asks for more characters exactly on a string right after a key or a misplaced number; no step reports the end-of-stream error |
| JsonParser.Run | utils/JSON/JSonParser.cpp:664-674 | a run that stops, on a finished step or on a step that asks for more characters, leaves an unread suffix of the tokens; a run never reports the end-of-stream error itself |
| JsonParser.ParseText | utils/JSON/JSonParser.cpp:699-728 | a whole text is one forced chunk: the document is finished exactly when a step finished it; "Unexpected end of JSON stream" is reported exactly when a step asked for more characters inside an open container, and then the events and errors read so far are kept and the document is not finished; a document ends thrown only when the lexer threw, and unfinished only when the lexer ran out of text or a step asked for more characters |
| JsonParser.RunConcat | utils/JSON/JSonParser.cpp:664-674 | running over two pieces of a token sequence is running over the first, then over the second from where it left off |
| JsonParser.ValueParses | utils/JSON/JSonParser.cpp:743-883 | the tokens of any value, placed where a value is accepted, parse without error into that value's event stream and leave the parser at the start of the same level |
| JsonParser.ElementsParse | utils/JSON/JSonParser.cpp:833-876 | comma-separated array elements parse without error into their events and leave the parser in the array (also lines 772-796) |
| JsonParser.MembersParse | utils/JSON/JSonParser.cpp:793-876 | comma-separated key, colon, value members parse without error into their events and leave the parser in the object |
| JsonParser.DocumentParses | utils/JSON/JSonParser.cpp:743-883 | an array or object document, followed by any tokens, parses without error into its own event stream; the run stops right after the closing token, back in the initial state (also lines 664-674) |
| JsonParser.TextParses | utils/JSON/JSonParser.cpp:699-728 | a text whose tokens start with those of an array or object value is read as that value's event stream, without error, and the document is finished whatever follows |
| JsonParser.StringAfterKeyEndsStream | utils/JSON/JSonParser.cpp:699-728 | a text whose tokens start with '{', a key and a second string yields the object's opening and the key, then "Unexpected JSON string after key" and "Unexpected end of JSON stream", and the document is not finished, whatever follows |
| JsonParser.StringAfterKeyRun | utils/JSON/JSonParser.cpp:664-674 | the tokens '{', a key and a second string stop the run for more characters inside the object, right after the key, with the rest of the tokens unread |
| JsonParser.TopLevelNumberEndsText | utils/JSON/JSonParser.cpp:699-728 | a text whose first token is a number yields no event and one "Unexpected JSON boolean after key" error, and nothing after the number is read; with no container open there is no end-of-stream error |
| JsonParser.SkipBalances | utils/JSON/JSonParser.cpp:1057-1066 | what a skip consumes is a non-empty prefix that brings the nesting counter back to 0 |
| JsonParser.SkipNode | utils/JSON/JSonParser.h:1195-1204 | a skip starts only at an opening event, and consumes a non-empty balanced prefix of the events |
| JsonParser.SkipsOneValue | utils/JSON/JSonParser.h:1195-1204 | at the start of an array or object, skipNode consumes exactly that value's events |
| JsonParser.FusedWordThrows | utils/JSON/JSonLexer.cpp:376-388 | "nullnull" is not a word the lexer accepts |
| JsonParser.FusedNullsDoNotReadBack | utils/JSON/JSonParser.cpp:699-728 | the text "[nullnull]" does not parse: the lexer throws |
| JsonWriter.CodeOf | utils/JSON/JSonParser.cpp:62-82 | every write method has a code in 0..7, and code 0 stands exactly for no pending method |
| JsonWriter.MethodOf | utils/JSON/JSonParser.cpp:46-82 | getMethod of a code in 0..7 is the method whose code is that number |
| JsonWriter.MethodCodeRoundTrip | utils/JSON/JSonParser.cpp:46-82 | getMethod and getCode are inverse to each other on the methods and on the codes 0..7 |
| JsonWriter.SetFromCode | utils/JSON/JSonParser.cpp:84-93 | every field decoded from any int is in range, and the comma and ender bits are left alone |
| JsonWriter.GetCode | utils/JSON/JSonParser.cpp:95-100 | the fields of a state in range pack into 0..511, and the low three bits are the pending method's code |
| JsonWriter.CodeRoundTrip | utils/JSON/JSonParser.cpp:84-100 | decoding then encoding keeps the low nine bits of any code, so every code in 0..511 comes back unchanged |
| JsonWriter.FieldsRoundTrip | utils/JSON/JSonParser.cpp:84-100 | encoding then decoding gives back every state whose fields are in range |
| JsonWriter.WriteEvent | utils/JSON/JSonParser.cpp:179-507 | each write moves the document level by the event's weight: up for an opening, down for a closing, unchanged otherwise |
| JsonWriter.LevelTracksBalance | utils/JSON/JSonParser.cpp:179-507 | after a stream of events the level is the starting level plus the stream's balance of opens over closes |
| JsonWriter.End | utils/JSON/JSonParser.h:205-209 | end finishes exactly at level 0 and throws otherwise |
| JsonWriter.EndIffBalanced | utils/JSON/JSonParser.h:127-209 | writing a stream from the initial state ends cleanly exactly when the stream is balanced |
| JsonWriter.ValueWrites | utils/JSON/JSonParser.cpp:179-507 | corrected, any value written with a pending comma is preceded by exactly one comma, comes out as its JSON text, and leaves a comma pending at the same level |
| JsonWriter.ElementsWrite | utils/JSON/JSonParser.cpp:403-461 | corrected, array elements come out separated by commas (also lines 366-400) |
| JsonWriter.MembersWrite | utils/JSON/JSonParser.cpp:288-363 | corrected, object members come out as key, ':' and value, separated by commas |
| JsonWriter.DocumentWrites | utils/JSON/JSonParser.cpp:179-507 | corrected, the events of any value are written as its JSON text and the writer ends at level 0 |
| JsonWriter.StringsRunTogetherAsWritten | utils/JSON/JSonParser.cpp:288-323 | as written, an array of the strings "a" and "b" comes out as ["a""b"], with no comma between them (also lines 366-388) |
| JsonWriter.NullsRunTogetherAsWritten | utils/JSON/JSonParser.cpp:391-400 | as written, an array of two nulls comes out as [nullnull]; corrected as [null,null] |

## Left out

- Incremental parsing and writing: the JSON lexer, parser and writer can stop for more characters (`RRNeedChars`) or more room (`WRNeedPlace`) and resume later. The model reads and writes whole documents at once: the text is the parser's last, forced chunk, so the lexer answers RRFinished at its end, and a parser step that still asks for more characters (a string right after a key, a misplaced number) ends the reading there, with "Unexpected end of JSON stream" when a container is open. Resuming on a later chunk is not modelled.
- Floating-point numbers: the JSON parser's float conversion and `addFloat` are left out, because Dafny has no IEEE floating point. A fractional or exponent token is lexed with its context flags, but no float value is computed.
- Pretty printing: the writer's indentation and its follow/ender bits only change whitespace, so the model writes the compact form.
- File I/O: the contract and property files, and loading the plugin libraries, are left out. The model starts from the parsed JSON value and from the plugins as function parameters.
- The processor and domain plugins are function parameters: `processor_next_targets`, the block interpreter, the text/integer conversions and the domain constructors. Their own code is not part of this model.
- The operation-code tables of `OperationNode` are parameters (`codes` and `resolve`). The model covers how a table code becomes an operation code and a symbolic flag, not the table contents.
- `DecisionVector` is left out. The driver's decisions are opaque data that the processor plugin clones and clears; they never affect the order of the checks.
- `ContractGraph::writeJSon` for the whole graph is not modelled. The writer for one contract is modelled (`Contracts.WriteContract`).
- The expression lexer's `readNumberToken` is not modelled. Numbers in expressions reach the model as already-read integers.
- The source's `SubString` buffer class is not modelled. Texts are plain sequences of characters.
- Processor.NewArraySize: the `int` overflow of `old_size*3/2` in the vector reallocation is not modelled. Sizes are unbounded integers, because the overflow only shows up for vectors of more than 700 million addresses.
- JsonParser.SetBit: the `int` overflow of `index*32` in the big-integer bit array is not modelled. Indices are unbounded, so the over-allocation finding is stated without the wrap-around.
- JsonParser.ParseText: a text arriving in several chunks is not modelled. The whole text is one forced chunk, so a step that asks for more characters ends the reading for good: with the source's stream exhausted, parse() does not read again. The text round trip (`JsonParser.TextParses`) starts from the tokens the lexer yields, not from the writer's characters.
- Contracts.ApplicationOrder: follows at most `fuel` dominators and returns None when the chain is longer. The source follows dominators until it reaches a contract without one.
- Processor.WalkFrom: walks at most `fuel` successor steps. `ForwardWalkEnds` shows that enough fuel always finishes a walk that moves forward.
- Processor.InterpretLoop: calls the interpreter at most `fuel` times. The source loops until the target is found.
- Checker.Run: visits at most `fuel` contracts and then halts with `NoFuel`. The source loop ends when the cursor leaves the graph.
- The script's failing-block report reads `error.columnpos` from an undefined `error` variable (check_contract.py:101-102). The model's block check never fails (`Registers.Contain` always holds), so that branch is unreachable and it only records `BlockFailed`.
- The big-integer value of a JSON number: the parser's bit array is modelled (`JsonParser.SetBit`, `JsonParser.Bits`), but the integer value of a token comes from the `integerOf` parameter.
- Unsupported inputs: the contract, graph, modifier and zone-action readers end with the `Unsupported` outcome, and read nothing more, on each input the source goes on reading but the model does not follow:
  - a value of the wrong kind (not an object for a contract, the graph or an action; not an array for the modifier list) while the error limit still lets reading go on. The source records "expected '{'" or "expected '['" and goes on from that token (for the modifier list, src/MemoryZone.cpp:598-604); the model records the same message and stops (`ZoneActions.ReadAction`, `ZoneActions.ReadModifierWith`, `Contracts.ReadContractWith`, `Contracts.ReadGraphWith`);
  - a text key of an action holding an array or object (`ZoneActions.ReadMembers`), or a "localization" holding one (`Contracts.ReadMembers`): the source steps into the container;
  - a "type" member holding an array or object (`ZoneActions.TypeMember`): the source steps into it;
  - a "content" member before any "type" in the modifier list (`ZoneActions.ContentMember`): the source calls newZoneAction on the undefined type (src/MemoryZone.cpp:644-648), which has no action to read into;
  - as written, a "type" member that ends its object (`ZoneActions.ReadObject` with `asWritten`): the reader's extra move steps over the object's closing brace.
- Checker.LocateKey: the contract reader appends contracts in file order (`insertNewAtEnd`, Contract.cpp:548) and does not sort them. The cursor functions therefore require contracts in address order (`Checker.Navigable`), as the sorted array assumes. Several contracts at one address are not modelled.
- Checker.PropertyAfterLoop: besides moving the check after the loop, the correction assumes the property contract is built with `Contract()`, loaded with `load_from_file(args.prop, processor)`, and that the loader uses `self.funs` (contract_checker.py:309). As written the first of these raises a TypeError before anything else.
- ExprOperators.ExpressionValue: the value of a whole expression is stated for domains of integers, for expressions of signed terms joined by "vv". Other operators, intervals and the symbolic merge are covered only by the stack lemmas.

## Findings

| source | as written | input that shows it | evidently intended | confidence | as-written member | corrected member |
|---|---|---|---|---|---|---|
| src/Contract.h:84-87 | when an id is neither registered nor pending but a larger id is pending, `lower_bound` lands on the larger id and the test (at the end, or on `id` itself) creates no entry, so the reference joins the larger id's list | pending ids {5: [a]}, look up 3 and then register 3: the reference made for 3 is filled with contract 5 | create a pending entry when `localize->first != id` | high, not executed | Contracts.LookForContractIdAsWritten, Contracts.LookForCounterexample | Contracts.LookForContractId, Contracts.ForwardReferenceResolved |
| src/Contract.cpp:176-189 | `setArgumentToLUInt` leaves the argument in its plain-integer state, so `isSetLUInt()` is false and "address" is never stored | `{"id": 1, "address": 4096}`: reported "contract is not complete" | store the document integer read as an unsigned 64-bit value | high, not executed | Contracts.ReadContractAsWritten, Contracts.AddressCounterexample | Contracts.ReadContract |
| src/Contract.cpp:312-347 | the previous edges are written under the key "nexts", a second time | any contract with a previous edge: it reads back with that edge as a next edge and no previous edge | write them under "previouses", which the reader expects | high, not executed | Contracts.WriteContractAsWritten | Contracts.WriteContract, Contracts.WriteThenReadEdges |
| src/MemoryZone.cpp:581-737 | the modifier writer never closes an action's object; the reader, when "type" follows "content", steps over the object's closing brace | `[{"type":"merge","content":M},{"content":M,"type":"merge"}]`: the reader leaves the modifier's scope | close each action's object; read "type" wherever it appears | high, not executed | ZoneActions.WriteModifierAsWritten, ZoneActions.ModifierWriterUnbalanced, ZoneActions.ReadModifierAsWritten, ZoneActions.TypeLastCounterexample | ZoneActions.WriteModifier, ZoneActions.ReadModifier, ZoneActions.ModifierRoundTrip |
| src/check_contract.py:111-121 | the coverage verdict is indented inside the loop over contracts | a graph of two contracts: "contract coverage fully verified" is printed twice | report once, after the loop | medium, not executed | Checker.ReportsInLoopAsWritten | Checker.ReportsAfterLoop |
| src/check_contract.py:123-146 | the property check sits inside the loop, and its first statement `Contract(processor)` raises a TypeError: the constructor takes no argument (contract_checker.py:298) | a property at 100 in the two-contract graph: the first pass reports the coverage, then stops on the TypeError | check the property once after the loop, building the contract with `Contract()` and loading it with `load_from_file(args.prop, processor)` | high, not executed | Checker.CheckProperty, Checker.PropertyTypeErrorAsWritten | Checker.PropertyAfterLoop |
| src/check_contract.py:111-115 | `first_contract.is_valid` is a bound method, which is always true, so its negation is always false | any graph without an initial contract: "no initial contract found" is never printed | call `is_valid()` | high, not executed | Checker.AsWrittenDriverSilent | Checker.CorrectedDriverReportsMissing |
| src/Expression.cpp:885-904 | when a digit precedes the suffix's '_' and no second `_digits` group precedes that digit, the suffix falls back to `firstExtension`, saved after stepping back once, so it starts on the digit and not on the '_' | "U8_16": "U" is looked up, and the suffix "8_16" fails the assumption that it starts with '_' | the suffix starts at the '_' | medium, not executed | ExprLexer.SuffixCounterexample | ExprLexer.CorrectedNeverFails |
| src/Expression.cpp:2578-2583 | after a found extended code sets the fields, "unknown operation" is still recorded | any text whose table code is extended (odd) | record the error only when the text is not found | medium, not executed | ExprOperators.FoundCodeReportedUnknown | ExprOperators.FoundCodeSetsFields |
| src/Expression.cpp:2503-2504 | `code & ~(~0U << FType) >> FExtended` parses as `code & (~(~0U << 1) >> 0)`, that is `code & 1`, which is 0 for every non-extended code | any non-extended (even) code: no case applies, the operation code is 0 and two errors are recorded | `(code & ~(~0U << FSymbolic)) >> FType`, the seven-bit type field | medium, not executed | ExprOperators.TypeFieldAlwaysUndefined | ExprOperators.TypeFieldSelectsCase |
| src/Expression.cpp:1244-1248 | `absorbLastArgument` fills the first argument again when it is already valid, overwriting it, so the first argument of a binary operator is lost | "a vv b" on two integers: "arguments have incompatible types" and the result is b | fill the second argument when the first is valid | medium, not executed | ExprOperators.MergeLosesFirstArgument | ExprOperators.MergeChainLeftAssociative |
| utils/JSON/JSonLexer.cpp:178-181 | the sign and stage flags overlap the format bits: `NCNegative` = 5 carries the hexadecimal bit, `NCPositive` or-ed with `NCHexa` equals `NCNegative`, `NCFractional` = 0x16 carries the binary bit and the next two stages carry more format bits | "1.5" splits after "1."; "1e+5" splits after the sign; "-10" is flagged hexadecimal; "+0x1" is flagged negative | keep the sign, the format and the stage in separate bits: NCNegative = 0xC, NCInteger = 0x10, NCFractional = 0x20, NCSignExponent = 0x30, NCExponent = 0x40, and the prefix mask 0xF | high, not executed | JsonLexer.FractionSplitsAsWritten, JsonLexer.ExponentSignSplitsAsWritten, JsonLexer.MinusTenHexadecimalAsWritten, JsonLexer.PlusHexNegativeAsWritten, JsonLexer.WrittenFlagsDisagree | JsonLexer.NumberFlagsAgreeWithText, JsonLexer.FractionIntended, JsonLexer.ExponentSignIntended, JsonLexer.MinusTenIntended, JsonLexer.PlusHexIntended |
| utils/JSON/JSonParser.h:364-394 | the bit array grows until `index*32` cells exist, instead of until the cell `index/32` exists | setting bit 3 of an empty array allocates 97 cells where 1 is enough | grow to `index/32 + 1` cells | high, not executed | JsonParser.OverAllocationAsWritten | JsonParser.StorageIsTight |
| utils/JSON/JSonParser.cpp:365-400 | `writeString` and `writeContent` set the comma field only after their value, so no comma is written before the next value | `["a","b"]` is written `["a""b"]`; `[null,null]` is written `[nullnull]`, which does not parse back | write a comma before every value but the first of a container | high, not executed | JsonWriter.StringsRunTogetherAsWritten, JsonWriter.NullsRunTogetherAsWritten, JsonParser.FusedNullsDoNotReadBack | JsonWriter.DocumentWrites |
