# Event-sourced orchard aggregate and event-type tags

This project models two parts of the ModulithTemplate repository.

- **Event-type tags** (`EventType`). An event type is a validated string. It
  is refused when it is missing or empty, longer than 50 characters, holds a
  whitespace character, or holds a character that is not a word character.
  The checks run in that order and the first that fails decides the error.
  A tag converts to its string and back unchanged. A type name converts to a
  tag only if it ends in `Event`; the suffix is removed and the rest is
  validated by the same rules.
- **The aggregate replay engine and the result type**, as the tests of the
  `Orchard` aggregate pin them down. An orchard is rebuilt from its history
  of change events:
  1. the events are sorted by sequence number;
  2. the history is checked: one leading creation event, no gaps, every
     event of one aggregate and of a kind the orchard handles;
  3. the creation event is materialized and the tree-added events are
     folded over it.

  Commands (`new Orchard`, `AddTree`, `DoIncorrectCreation`) append the
  events they raise to the pending buffer. `Then` chains steps that return a
  `Result`. It stops at the first failure, and it turns a fault thrown inside
  a step into a failure that carries the fault's message and the fault.

Modules:

| file | module | what it holds |
|---|---|---|
| `wrappers.dfy` | `Wrappers` | `Option` (the source's `null`) |
| `event_type.dfy` | `EventTypes` | the tag, its validation, the string and type-name conversions, and their lemmas |
| `results.dfy` | `Results` | `Result`, `Failed`, `Fault`, `Attempt`, `Then`, the accessors, and chains with their lemmas |
| `change_events.dfy` | `ChangeEvents` | the change events, `SetSequence`, and the stable sort by sequence number with its uniqueness lemma |
| `orchards.dfy` | `Orchards` | the orchard as a value: apply handlers, `Replay` (`FromHistoryRaw`), `FromHistory`, the commands, and the replay theorems |
| `orchard_root.dfy` | `OrchardRoot` | the class `Orchard`, whose fields the commands update in place and whose replay loops over the sorted events, each method proved against `Orchards` |
| `orchard_scenarios.dfy` | `OrchardScenarios` | the behaviour each test asserts, stated for all ids, names and trees |

The classes `Orchard`, `ChangeEvent`, `CreationEvent<T>` and `Result` are
not modelled from their code. Their behaviour is taken from what the test file
of the orchard aggregate asserts. Where the tests leave something open, the
model makes the choices listed below.

- **Sequence numbers of new events.** The tests:
  - replay events read straight from `PendingChangeEvents` successfully
    (lines 16-33 and 47-75);
  - see a creation event built by hand, not raised by a command, make
    `FromHistory` throw (lines 42-44);
  - number a hand-built event with `SetSequence(2)` before replaying it next
    to the creation event (lines 165-168).

  The model reads this as follows:
  - Commands stamp each event with `version + 1`. The creation event is
    number 1, and a new orchard has version 1.
  - An event built by hand has no number.
  - Replay refuses any event that has no number. That is why the hand-built
    creation event throws.

  This reading is the model's own. The tests show only that the hand-built
  creation event at line 43 throws, not why.
- **The tree-type rule.** The tests only show that the tree type `"invalid"`
  is refused (lines 337-343). `"maple"`, `"orange"`, `"apple"` and GUID
  strings are accepted. The model refuses exactly `"invalid"`.
- **Events of another aggregate.** The model keeps one ownership invariant:
  every event of a history carries the aggregate id of its creation event,
  and a history that breaks this is refused. The event at test lines 165-168
  belongs to a fresh aggregate id and also has no handler. The test name says
  that the missing handler is the cause. So ownership is checked after the
  fold, and that history fails with the unrecognized-event reason.
- **Unknown event kinds in `FromHistory`.** Like every other replay failure,
  they throw an invalid-operation fault. `FromHistoryRaw` returns them as a
  failure.
- **Calling an accessor on the wrong variant.** No test calls
  `ExpectSuccessAndGet` on a failure or `ExpectFailureAndGet` on a success.
  The model has such a call throw an invalid-operation fault.
- **Failure messages.** The wording of the replay and command failure reasons
  is not visible. The model uses its own constants, and the lemmas only
  depend on which reason is reported. The messages of `EventType` are the
  source's own.
- **The second tree event in test lines 90-101.** The comment at line 97
  says `tree2` is left out of the history, but line 100 passes it.
  `OrchardScenarios.NoCreationThrows` follows line 100.
- **Tree types in the fixture.** Each tree the fixture plants has its own id
  and type (line 316 passes a fresh GUID string as the type). The fixture
  lemmas therefore take a list of trees.

## Model

| member | source | states |
|---|---|---|
| EventTypes.WhitespaceIsNotWord | src/Modeling.Application/Cqrs/EventSourcing/Events/EventType.cs:15-16 | no whitespace character is a word character, so a value that passes the whitespace check can only fail the word check through another character |
| EventTypes.HasWhitespace | src/Modeling.Application/Cqrs/EventSourcing/Events/EventType.cs:15 | the scan is true exactly when some character of the value is whitespace |
| EventTypes.HasNonWordCharacter | src/Modeling.Application/Cqrs/EventSourcing/Events/EventType.cs:16 | the scan is true exactly when some character of the value is not a letter, digit or underscore |
| EventTypes.CodeUnits | src/Modeling.Application/Cqrs/EventSourcing/Events/EventType.cs:24 | a character takes two UTF-16 code units iff it lies above U+FFFF, and one otherwise |
| EventTypes.Utf16Length | src/Modeling.Application/Cqrs/EventSourcing/Events/EventType.cs:24 | `string.Length` counts between one and two code units per character |
| EventTypes.WordUtf16Length | src/Modeling.Application/Cqrs/EventSourcing/Events/EventType.cs:24 | a string of word characters has exactly one code unit per character |
| EventTypes.Utf16LengthAppend | src/Modeling.Application/Cqrs/EventSourcing/Events/EventType.cs:24 | appending a character adds its own code units to the length |
| EventTypes.Message | src/Modeling.Application/Cqrs/EventSourcing/Events/EventType.cs:22-57 | the type-name message holds the offending name between its fixed head and tail, with nothing else around it |
| EventTypes.MessagesIdentifyErrors | src/Modeling.Application/Cqrs/EventSourcing/Events/EventType.cs:22-57 | two errors have the same message iff they are the same error, so the message tells which check failed and, for the suffix error, which name was refused |
| EventTypes.Validate | src/Modeling.Application/Cqrs/EventSourcing/Events/EventType.cs:20-31 | a value is accepted iff it is present, 1 to 50 characters long and made of word characters, and it is then stored unchanged; each error is reported exactly when its check is the first to fail (null or empty, then more than 50 UTF-16 code units, then any whitespace, then a non-word character with no whitespace); validation never reports the type-name error |
| EventTypes.ToString | src/Modeling.Application/Cqrs/EventSourcing/Events/EventType.cs:38 | the string of any tag is a valid tag value |
| EventTypes.FromString | src/Modeling.Application/Cqrs/EventSourcing/Events/EventType.cs:45 | a string converts to a tag iff it is a valid tag value |
| EventTypes.FromTypeName | src/Modeling.Application/Cqrs/EventSourcing/Events/EventType.cs:53-60 | a name without the suffix `Event` is refused with an error naming it; a name with it is validated as the name minus its last five characters |
| EventTypes.StringRoundTrip | src/Modeling.Application/Cqrs/EventSourcing/Events/EventType.cs:30-45 | a valid string converted to a tag and back is the same string |
| EventTypes.TagRoundTrip | src/Modeling.Application/Cqrs/EventSourcing/Events/EventType.cs:38-45 | every tag converted to a string and back is the same tag |
| EventTypes.TagEquality | src/Modeling.Application/Cqrs/EventSourcing/Events/EventType.cs:9-12 | the tag is a record over its value: two tags are equal iff their strings are |
| EventTypes.TypeNameRoundTrip | src/Modeling.Application/Cqrs/EventSourcing/Events/EventType.cs:53-60 | a tag's value followed by `Event` converts back to the same tag |
| EventTypes.TypeNameStem | src/Modeling.Application/Cqrs/EventSourcing/Events/EventType.cs:59 | any stem followed by `Event` gives the same outcome as validating the stem |
| EventTypes.BareEventRejected | src/Modeling.Application/Cqrs/EventSourcing/Events/EventType.cs:59 | the bare name `Event` strips to the empty string and is refused as having no value |
| EventTypes.LengthBoundary | src/Modeling.Application/Cqrs/EventSourcing/Events/EventType.cs:14-24 | fifty word characters are accepted, and any fifty-first character makes the value too long |
| EventTypes.SurrogatePairCountsTwice | src/Modeling.Application/Cqrs/EventSourcing/Events/EventType.cs:24 | forty-nine word characters followed by one character above U+FFFF are fifty characters but fifty-one code units, and are refused as too long |
| Results.Fail | src/Modeling.Domain.Tests.Unit/EventSourcing/EventSourcingAggregateRootTests.cs:252-266 | `Result.Failure(reasons)` is a failure with exactly those reasons and no exception |
| Results.Done | src/Modeling.Domain.Tests.Unit/EventSourcing/EventSourcingAggregateRootTests.cs:237-250 | `Result.Success()` is a success |
| Results.SucceededOrFailed | src/Modeling.Domain.Tests.Unit/EventSourcing/EventSourcingAggregateRootTests.cs:160-177 | `Succeeded` and `Failed` are complements: every result is exactly one of the two |
| Results.Captured | src/Modeling.Domain.Tests.Unit/EventSourcing/EventSourcingAggregateRootTests.cs:192-209 | a captured fault is a failure whose only reason is the fault's message and whose exception is the fault |
| Results.Then | src/Modeling.Domain.Tests.Unit/EventSourcing/EventSourcingAggregateRootTests.cs:187-249 | a failure passes through unchanged without running the step; on a success the step's returned result is kept, and a fault it throws becomes the captured failure |
| Results.ExpectSuccessAndGet | src/Modeling.Domain.Tests.Unit/EventSourcing/EventSourcingAggregateRootTests.cs:212-220 | it gives the value iff the result is a success, and otherwise throws an invalid-operation fault |
| Results.ExpectFailureAndGet | src/Modeling.Domain.Tests.Unit/EventSourcing/EventSourcingAggregateRootTests.cs:195-209 | it gives the failure's reasons and exception iff the result is a failure, and otherwise throws an invalid-operation fault |
| Results.ThenWellFormed | src/Modeling.Domain.Tests.Unit/EventSourcing/EventSourcingAggregateRootTests.cs:195-201 | chaining keeps every failure's reasons non-empty, captured faults included |
| Results.ChainFromFailure | src/Modeling.Domain.Tests.Unit/EventSourcing/EventSourcingAggregateRootTests.cs:337-343 | a chain started from a failure runs no step and ends with that failure |
| Results.ChainSplit | src/Modeling.Domain.Tests.Unit/EventSourcing/EventSourcingAggregateRootTests.cs:328-335 | running a chain is running a prefix and then the rest from where the prefix ended |
| Results.ChainStopsAtFailure | src/Modeling.Domain.Tests.Unit/EventSourcing/EventSourcingAggregateRootTests.cs:252-266 | once a prefix of a chain fails, the whole chain ends with that prefix's failure and reasons |
| Results.ChainWellFormed | src/Modeling.Domain.Tests.Unit/EventSourcing/EventSourcingAggregateRootTests.cs:252-266 | a chain whose steps only return well-formed results ends well-formed, so a failing chain always reports a reason |
| Results.ChainOfSuccesses | src/Modeling.Domain.Tests.Unit/EventSourcing/EventSourcingAggregateRootTests.cs:179-185 | a chain from a success whose every step returns a success succeeds |
| Results.ThenAssociative | src/Modeling.Domain.Tests.Unit/EventSourcing/EventSourcingAggregateRootTests.cs:328-335 | two `Then` in a row equal one `Then` with the composed step |
| ChangeEvents.SetSequence | src/Modeling.Domain.Tests.Unit/EventSourcing/EventSourcingAggregateRootTests.cs:165-166 | it succeeds iff the event has no sequence number, and then only the number changes, to the given one; otherwise it fails with a reason |
| ChangeEvents.SetSequenceTwice | src/Modeling.Domain.Tests.Unit/EventSourcing/EventSourcingAggregateRootTests.cs:165-166 | a second assignment of a sequence number fails |
| ChangeEvents.Insert | src/Modeling.Domain.Tests.Unit/EventSourcing/EventSourcingAggregateRootTests.cs:62-75 | insertion adds exactly the new event to the elements |
| ChangeEvents.InsertSorted | src/Modeling.Domain.Tests.Unit/EventSourcing/EventSourcingAggregateRootTests.cs:62-75 | inserting into a sequence sorted by sequence number keeps it sorted |
| ChangeEvents.SortBySequence | src/Modeling.Domain.Tests.Unit/EventSourcing/EventSourcingAggregateRootTests.cs:62-75 | the sorted events are in ascending sequence order and are a permutation of the input |
| ChangeEvents.SortedElements | src/Modeling.Domain.Tests.Unit/EventSourcing/EventSourcingAggregateRootTests.cs:62-75 | sorting keeps the length and exactly the same events |
| ChangeEvents.SortedPermutationUnique | src/Modeling.Domain.Tests.Unit/EventSourcing/EventSourcingAggregateRootTests.cs:62-75 | a sequence with strictly increasing numbers is the only sorted arrangement of its events |
| ChangeEvents.SortOfStrictlySorted | src/Modeling.Domain.Tests.Unit/EventSourcing/EventSourcingAggregateRootTests.cs:47-60 | events already in strictly increasing order are left as they are by the sort |
| Orchards.Materialize | src/Modeling.Domain.Tests.Unit/EventSourcing/EventSourcingAggregateRootTests.cs:16-34 | the creation event gives the orchard its id and name, no trees, no pending events, and its number as version |
| Orchards.Apply | src/Modeling.Domain.Tests.Unit/EventSourcing/EventSourcingAggregateRootTests.cs:157-169 | applying succeeds iff the event adds a tree, and it then appends that tree and moves the version to the event's number; any other event fails with a reason and no exception |
| Orchards.ApplyAll | src/Modeling.Domain.Tests.Unit/EventSourcing/EventSourcingAggregateRootTests.cs:47-75 | folding keeps the id, name and pending buffer, and a failure always has a reason |
| Orchards.ApplyAllContents | src/Modeling.Domain.Tests.Unit/EventSourcing/EventSourcingAggregateRootTests.cs:47-75 | the fold succeeds iff every event adds a tree, and then the run's trees are appended in run order and the version is the last event's number |
| Orchards.TreesInAppend | src/Modeling.Domain.Tests.Unit/EventSourcing/EventSourcingAggregateRootTests.cs:308-325 | the trees of a run with one more event are the old trees followed by that event's tree |
| Orchards.Replay | src/Modeling.Domain.Tests.Unit/EventSourcing/EventSourcingAggregateRootTests.cs:160-177 | an empty history fails with the no-events reason, a history with an unnumbered event fails with the unsequenced reason, a success has no pending events, and a failure has a reason and no exception; the ownership check comes after the fold, so an event without handler is reported before a foreign aggregate id |
| Orchards.ReplayValidHistory | src/Modeling.Domain.Tests.Unit/EventSourcing/EventSourcingAggregateRootTests.cs:47-60 | a well-formed history replays to the creation event's id and name, the trees in sequence order, the last number as version, and no pending events |
| Orchards.ReplaySuccessIsValid | src/Modeling.Domain.Tests.Unit/EventSourcing/EventSourcingAggregateRootTests.cs:77-111 | a history that replays successfully is well-formed once sorted |
| Orchards.ReplayCharacterization | src/Modeling.Domain.Tests.Unit/EventSourcing/EventSourcingAggregateRootTests.cs:16-75 | replay succeeds iff the sorted history is well-formed, and the orchard is then determined by its events as above |
| Orchards.ReplayWithoutCreation | src/Modeling.Domain.Tests.Unit/EventSourcing/EventSourcingAggregateRootTests.cs:90-111 | a history with no creation event fails, however it is numbered |
| Orchards.ReplayTwoCreations | src/Modeling.Domain.Tests.Unit/EventSourcing/EventSourcingAggregateRootTests.cs:114-122 | a history with two creation events fails |
| Orchards.ReplayWithGap | src/Modeling.Domain.Tests.Unit/EventSourcing/EventSourcingAggregateRootTests.cs:77-88 | a history in which a number between two present numbers has no event fails |
| Orchards.ReplayUnrecognized | src/Modeling.Domain.Tests.Unit/EventSourcing/EventSourcingAggregateRootTests.cs:157-169 | a history holding an event of a kind the orchard has no handler for fails |
| Orchards.ReplayForeign | src/Modeling.Domain.Tests.Unit/EventSourcing/EventSourcingAggregateRootTests.cs:165-168 | a history mixing events of two aggregate ids fails, whatever else is wrong with it |
| Orchards.ReplayCreationOnly | src/Modeling.Domain.Tests.Unit/EventSourcing/EventSourcingAggregateRootTests.cs:16-34 | a history of only a numbered creation event replays to its id and name, no trees, its number as version, and no pending events |
| Orchards.ContiguousIsStrictlySorted | src/Modeling.Domain.Tests.Unit/EventSourcing/EventSourcingAggregateRootTests.cs:77-88 | gap-free numbering from the first event is strictly increasing |
| Orchards.ReplayOrderIrrelevant | src/Modeling.Domain.Tests.Unit/EventSourcing/EventSourcingAggregateRootTests.cs:62-75 | a history that replays successfully replays to the same orchard in every other input order |
| Orchards.ReplaySameSorted | src/Modeling.Domain.Tests.Unit/EventSourcing/EventSourcingAggregateRootTests.cs:62-75 | two non-empty histories that sort to the same sequence and are numbered alike replay to the same result |
| Orchards.FromHistory | src/Modeling.Domain.Tests.Unit/EventSourcing/EventSourcingAggregateRootTests.cs:36-111 | it gives a value iff replay succeeds, and that value is the replayed orchard with no pending events; otherwise it throws an invalid-operation fault whose message is the first replay reason |
| Orchards.Raise | src/Modeling.Domain.Tests.Unit/EventSourcing/EventSourcingAggregateRootTests.cs:308-325 | a raised tree event is appended to the end of the pending buffer and applied to the trees and version, keeping id and name |
| Orchards.Create | src/Modeling.Domain.Tests.Unit/EventSourcing/EventSourcingAggregateRootTests.cs:291-305 | a new orchard has the given id and name, no trees, version 1, and exactly its creation event (number 1) pending |
| Orchards.AddTree | src/Modeling.Domain.Tests.Unit/EventSourcing/EventSourcingAggregateRootTests.cs:313-343 | it succeeds iff the tree type is valid (`IsValidTreeType`: every type but "invalid"), and then exactly one tree-added event for this orchard, numbered after the version, is appended and the tree is planted; otherwise it fails with a reason |
| Orchards.DoIncorrectCreation | src/Modeling.Domain.Tests.Unit/EventSourcing/EventSourcingAggregateRootTests.cs:280-289 | a second creation always fails with a reason and no exception |
| Orchards.ThrowException | src/Modeling.Domain.Tests.Unit/EventSourcing/EventSourcingAggregateRootTests.cs:203-210 | the step throws an invalid-cast fault |
| Orchards.CreateFreshlyCommanded | src/Modeling.Domain.Tests.Unit/EventSourcing/EventSourcingAggregateRootTests.cs:291-305 | a new orchard's pending buffer is its creation event numbered 1, consistent with its trees and version |
| Orchards.AddTreeFreshlyCommanded | src/Modeling.Domain.Tests.Unit/EventSourcing/EventSourcingAggregateRootTests.cs:308-325 | a successful `AddTree` keeps the buffer a creation event followed by tree events of this orchard numbered 1, 2, 3, ... and consistent with the trees and version |
| Orchards.PendingEventsAreValidHistory | src/Modeling.Domain.Tests.Unit/EventSourcing/EventSourcingAggregateRootTests.cs:145-155 | the pending buffer of a commanded orchard is already sorted and is a well-formed history |
| Orchards.ReplayPendingEvents | src/Modeling.Domain.Tests.Unit/EventSourcing/EventSourcingAggregateRootTests.cs:145-155 | replaying a commanded orchard's pending events gives back the orchard, with an empty pending buffer |
| Orchards.ReplayReorderedPendingEvents | src/Modeling.Domain.Tests.Unit/EventSourcing/EventSourcingAggregateRootTests.cs:62-75 | any reordering of those pending events replays to the same orchard |
| OrchardRoot.Orchard.constructor | src/Modeling.Domain.Tests.Unit/EventSourcing/EventSourcingAggregateRootTests.cs:291-299 | the new object holds the state `Create` describes, with its creation event as the last pending event |
| OrchardRoot.Orchard.Materialized | src/Modeling.Domain.Tests.Unit/EventSourcing/EventSourcingAggregateRootTests.cs:16-34 | replay starts from the object the creation event materializes |
| OrchardRoot.Orchard.Apply | src/Modeling.Domain.Tests.Unit/EventSourcing/EventSourcingAggregateRootTests.cs:157-169 | the object changes to the state the apply handler gives, and an event without handler fails and changes nothing |
| OrchardRoot.Orchard.ApplyEach | src/Modeling.Domain.Tests.Unit/EventSourcing/EventSourcingAggregateRootTests.cs:47-75 | applying a run of events one by one in place ends in the state, or the failure, of the fold |
| OrchardRoot.Orchard.Raise | src/Modeling.Domain.Tests.Unit/EventSourcing/EventSourcingAggregateRootTests.cs:313-319 | the event is applied and appended to the end of the pending buffer |
| OrchardRoot.Orchard.AddTree | src/Modeling.Domain.Tests.Unit/EventSourcing/EventSourcingAggregateRootTests.cs:313-325 | the object ends in the state `AddTree` describes and the method returns the same object; on success the last pending event is the tree-added event carrying the orchard's id; a commanded orchard stays commanded |
| OrchardRoot.Orchard.DoIncorrectCreation | src/Modeling.Domain.Tests.Unit/EventSourcing/EventSourcingAggregateRootTests.cs:280-289 | the second creation fails with the value model's failure and changes nothing |
| OrchardRoot.Orchard.FromHistoryRaw | src/Modeling.Domain.Tests.Unit/EventSourcing/EventSourcingAggregateRootTests.cs:160-177 | it succeeds iff `Replay` does, with a new object holding the replayed state, and otherwise returns `Replay`'s failure; the in-place fold runs before the ownership check, as in `Replay` |
| OrchardRoot.Orchard.FromHistory | src/Modeling.Domain.Tests.Unit/EventSourcing/EventSourcingAggregateRootTests.cs:36-111 | it gives a new object iff `FromHistory` gives a value, holding that value, and otherwise throws the same fault |
| OrchardRoot.SecondCreationLeavesBuffer | src/Modeling.Domain.Tests.Unit/EventSourcing/EventSourcingAggregateRootTests.cs:280-289 | a refused second creation does not succeed (`Succeeded` is false), and the last pending event is still the tree-added event of the orchard, not a creation event |
| OrchardScenarios.Planted | src/Modeling.Domain.Tests.Unit/EventSourcing/EventSourcingAggregateRootTests.cs:308-325 | an orchard created and given a list of trees, each with its own id and valid type, is commanded and holds those trees, and its k-th tree event carries number k + 2, the k-th tree id and the k-th tree type |
| OrchardScenarios.CreationRehydratesIdAndName | src/Modeling.Domain.Tests.Unit/EventSourcing/EventSourcingAggregateRootTests.cs:16-34 | the creation event of a new orchard rehydrates its id and name |
| OrchardScenarios.HandBuiltCreationThrows | src/Modeling.Domain.Tests.Unit/EventSourcing/EventSourcingAggregateRootTests.cs:36-45 | a creation event built outside the orchard makes `FromHistory` throw an invalid-operation fault |
| OrchardScenarios.SwappedTreeEventsReplay | src/Modeling.Domain.Tests.Unit/EventSourcing/EventSourcingAggregateRootTests.cs:62-75 | a creation and two tree events, with the tree events swapped, replay to the commanded orchard they came from |
| OrchardScenarios.TreesRehydrateInSequenceOrder | src/Modeling.Domain.Tests.Unit/EventSourcing/EventSourcingAggregateRootTests.cs:47-75 | creation, tree 2, tree 1 replays like creation, tree 1, tree 2, that replay gives back the planted orchard, and its trees are tree 1 then tree 2 with their ids and types |
| OrchardScenarios.MissingEventThrows | src/Modeling.Domain.Tests.Unit/EventSourcing/EventSourcingAggregateRootTests.cs:77-88 | for any three planted trees, the history numbered 1, 2, 4 makes `FromHistory` throw |
| OrchardScenarios.NoCreationThrows | src/Modeling.Domain.Tests.Unit/EventSourcing/EventSourcingAggregateRootTests.cs:90-101 | for any three planted trees, their three tree-added events without the creation event make `FromHistory` throw |
| OrchardScenarios.FakeCreationThrows | src/Modeling.Domain.Tests.Unit/EventSourcing/EventSourcingAggregateRootTests.cs:103-112 | a hand-built tree-added event for the orchard's id makes `FromHistory` throw |
| OrchardScenarios.RehydrationKeepsNoEvents | src/Modeling.Domain.Tests.Unit/EventSourcing/EventSourcingAggregateRootTests.cs:145-155 | for any valid tree, a creation and its tree event replay successfully to an orchard with no pending events |
| OrchardScenarios.UnknownEventFails | src/Modeling.Domain.Tests.Unit/EventSourcing/EventSourcingAggregateRootTests.cs:157-169 | numbering an event of an unknown kind 2 succeeds, and `FromHistoryRaw` of the creation event plus that event has `Failed` set, with the missing-handler reason, whatever aggregate id the event carries |
| OrchardScenarios.EventsCarryAggregateId | src/Modeling.Domain.Tests.Unit/EventSourcing/EventSourcingAggregateRootTests.cs:124-143 | for any valid trees, the first pending event is the creation event and every event raised carries the orchard's id |
| OrchardScenarios.BindingSucceeds | src/Modeling.Domain.Tests.Unit/EventSourcing/EventSourcingAggregateRootTests.cs:179-185 | the maple, orange, apple chain (`BindCreation`, lines 328-335) succeeds with those three trees in call order and four pending events that replay to the same orchard |
| OrchardScenarios.InvalidBindingFails | src/Modeling.Domain.Tests.Unit/EventSourcing/EventSourcingAggregateRootTests.cs:252-266 | the chain ending in "invalid" (`InvalidBindCreation`, lines 337-343) fails with the invalid tree type as its only reason and no exception |
| OrchardScenarios.ExceptionInBindingIsCaptured | src/Modeling.Domain.Tests.Unit/EventSourcing/EventSourcingAggregateRootTests.cs:187-210 | a throwing step after the chain gives a failure whose reasons are the fault's message and whose exception is the invalid-cast fault |
| OrchardScenarios.MappingGivesName | src/Modeling.Domain.Tests.Unit/EventSourcing/EventSourcingAggregateRootTests.cs:212-221 | mapping the chain's orchard to its name gives the name of the chain's orchard |
| OrchardScenarios.FaultInMappingGivesMessage | src/Modeling.Domain.Tests.Unit/EventSourcing/EventSourcingAggregateRootTests.cs:223-235 | a fault thrown in a mapping step gives a failure whose first reason is the fault's message |
| OrchardScenarios.FaultInUnitStepFails | src/Modeling.Domain.Tests.Unit/EventSourcing/EventSourcingAggregateRootTests.cs:237-250 | a unit-valued step that throws makes the chain fail |

## Left out

- EventTypes.IsWordChar: .NET's `\W` is Unicode-aware. The model counts only the ASCII letters, digits and underscore as word characters, so non-ASCII letters are refused here but accepted by the source.
- EventTypes.Utf16Length: a character here is a Unicode scalar value, so a .NET string holding an unpaired surrogate cannot be written down; a surrogate pair is one character that counts as two code units.
- EventTypes.IsWhitespace: the exact code points .NET's `\s` matches are listed. No Unicode database is modelled beyond that list.
- The JSON serialisation attributes on `EventType` are left out, because serialisation belongs to a foreign library.
- Reflection over `System.Type` is left out. A type is given by its name string.
- The `EventType` suffix test is ordinal. Culture-sensitive string comparison is not modelled.
- Exceptions are left out as a control-flow mechanism. A call that can throw returns an `Attempt`, and the exception classes are the variants of `FaultKind`.
- `Guid.NewGuid()` is left out. Orchard ids and tree ids are parameters of type `nat`. This includes the tree id `AddTree` generates internally.
- `Orchard.Create()` takes no arguments in the tests. Its id and name come from code that is not part of this model, so the model takes them as parameters.
- The test-output logging and the asynchronous `ThrowsAsync` wrapper are left out, because they are harness plumbing with no behaviour of the aggregate.
- ChangeEvents.SetSequence: it is modelled on values, returning the numbered event. The in-place update of an event object that is shared with a pending buffer, and the aliasing that follows, are not captured.
- ChangeEvents.SortBySequence: its stability (equal numbers keep their input order) is built into `Insert` but not proved. Replay only reaches the fold when numbers are distinct.
- The dependency-injection installers, module manifests, integration requests and query tests are left out, because they only register services or route messages.
- Concurrency and optimistic-concurrency checks are left out, because they belong to the event store, which is not part of this model.
