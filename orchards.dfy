/**
  The orchard aggregate as a value: its state, the apply handlers that move
  it from one event to the next, replay from a history (`FromHistoryRaw`,
  which returns a failure, and `FromHistory`, which throws), and the commands
  (`new Orchard`, `AddTree`, `DoIncorrectCreation`, `ThrowException`) that
  raise new events into the pending buffer.
 */
module Orchards {
  import opened Wrappers
  import opened Results
  import opened ChangeEvents

  datatype Tree = Tree(id: Id, treeType: string)

  /** The aggregate's state: identity, name, trees, the last applied sequence number, and the pending events. */
  datatype OrchardState = OrchardState(
    id: Id,
    name: string,
    trees: seq<Tree>,
    version: nat,
    pending: seq<ChangeEvent>)

  const NoEvents := "There are no events to replay"
  const UnsequencedEvent := "Every event of a history must have a sequence number"
  const NoLeadingCreation := "The aggregate requires a leading creation event"
  const MultipleCreations := "A history cannot contain more than one creation event"
  const MissingEvent := "There is a missing event in the sequence"
  const ForeignEvent := "The history contains an event of another aggregate"
  const UnrecognizedEventType := "Unrecognized event type during replay"
  const AlreadyCreated := "The orchard has already been created"
  const InvalidTreeType := "The tree type is not valid"
  const CastFault := "Unable to cast the orchard"

  /** The tree a tree-added event plants; other events plant none. */
  function TreeIn(e: ChangeEvent): seq<Tree> {
    if e.TreeAdded? then [Tree(e.treeId, e.treeType)] else []
  }

  /** The trees a run of events plants, in the order of the run. */
  function TreesIn(es: seq<ChangeEvent>): seq<Tree> {
    if es == [] then [] else TreeIn(es[0]) + TreesIn(es[1..])
  }

  lemma {:induction false} TreesInAppend(es: seq<ChangeEvent>, e: ChangeEvent)
    ensures TreesIn(es + [e]) == TreesIn(es) + TreeIn(e)
  {
    if es != [] {
      assert (es + [e])[1..] == es[1..] + [e];
      TreesInAppend(es[1..], e);
    } else {
      assert TreesIn([e]) == TreeIn(e) + TreesIn([]);
    }
  }

  /** The creation event's handler: it establishes identity and name, before any tree. */
  function Materialize(e: ChangeEvent): (s: OrchardState)
    requires e.OrchardCreated?
    ensures s.id == e.aggregateId && s.name == e.name && s.trees == [] && s.pending == []
    ensures s.version == Position(e)
  {
    OrchardState(e.aggregateId, e.name, [], Position(e), [])
  }

  /**
    The apply dispatch of an existing orchard: a tree-added event appends its
    tree and advances the version; there is no handler for a second creation
    or for an event of an unknown kind.
   */
  function Apply(s: OrchardState, e: ChangeEvent): (r: Result<OrchardState>)
    ensures r.Success? <==> e.TreeAdded?
    ensures r.Success? ==> r.value == s.(trees := s.trees + TreeIn(e), version := Position(e))
    ensures r.Failure? ==> r.failure.reasons != [] && r.failure.exception.None?
  {
    match e
    case TreeAdded(_, _, treeId, treeType) =>
      Success(s.(trees := s.trees + [Tree(treeId, treeType)], version := Position(e)))
    case OrchardCreated(_, _, _) => Fail([MultipleCreations])
    case Unrecognized(_, _, _) => Fail([UnrecognizedEventType])
  }

  /** Applies a run of events in order, stopping at the first one without a handler. */
  function ApplyAll(s: OrchardState, es: seq<ChangeEvent>): (r: Result<OrchardState>)
    ensures r.Success? ==> r.value.id == s.id && r.value.name == s.name && r.value.pending == s.pending
    ensures r.Failure? ==> r.failure.reasons != [] && r.failure.exception.None?
    decreases |es|
  {
    if es == [] then Success(s)
    else
      match Apply(s, es[0])
      case Failure(f) => Failure(f)
      case Success(next) => ApplyAll(next, es[1..])
  }

  /**
    The fold succeeds exactly when every event of the run is a tree-added
    event, and then the trees of the run are appended in order and the version
    is the position of the last event.
   */
  lemma {:induction false} ApplyAllContents(s: OrchardState, es: seq<ChangeEvent>)
    ensures ApplyAll(s, es).Success? <==> forall i :: 0 <= i < |es| ==> es[i].TreeAdded?
    ensures ApplyAll(s, es).Success? ==>
              ApplyAll(s, es).value ==
                s.(trees := s.trees + TreesIn(es),
                   version := if es == [] then s.version else Position(es[|es| - 1]))
    decreases |es|
  {
    if es != [] {
      if es[0].TreeAdded? {
        var next := s.(trees := s.trees + TreeIn(es[0]), version := Position(es[0]));
        assert ApplyAll(s, es) == ApplyAll(next, es[1..]);
        ApplyAllContents(next, es[1..]);
        assert TreesIn(es) == TreeIn(es[0]) + TreesIn(es[1..]);
        assert s.trees + TreesIn(es) == next.trees + TreesIn(es[1..]);
        if |es| > 1 {
          assert es[1..][|es| - 2] == es[|es| - 1];
        }
        assert (forall i :: 0 <= i < |es| ==> es[i].TreeAdded?) <==>
               (forall i :: 0 <= i < |es[1..]| ==> es[1..][i].TreeAdded?) by {
          forall i | 1 <= i < |es| ensures es[i] == es[1..][i - 1] { }
        }
      } else {
        assert ApplyAll(s, es).Failure?;
      }
    }
  }

  predicate AllSequenced(es: seq<ChangeEvent>) {
    forall e :: e in es ==> e.sequence.Some?
  }

  predicate HasLaterCreation(s: seq<ChangeEvent>) {
    exists i :: 1 <= i < |s| && s[i].OrchardCreated?
  }

  /** The positions run without gap or repetition from the first one. */
  predicate Contiguous(s: seq<ChangeEvent>) {
    s != [] ==> forall i :: 0 <= i < |s| ==> Position(s[i]) == Position(s[0]) + i
  }

  predicate SameAggregate(s: seq<ChangeEvent>, id: Id) {
    forall e :: e in s ==> e.aggregateId == id
  }

  /**
    `FromHistoryRaw`: sorts the events by sequence number, checks the
    structure of the history, materializes the creation event and folds the
    apply handlers over the rest; an event without a handler fails the fold.
    Last, every event must belong to the aggregate the creation event names.
    Every failure is returned, none is thrown.
   */
  function Replay(events: seq<ChangeEvent>): (r: Result<OrchardState>)
    ensures events == [] ==> r == Fail([NoEvents])
    ensures events != [] && !AllSequenced(events) ==> r == Fail([UnsequencedEvent])
    ensures r.Success? ==> r.value.pending == []
    ensures r.Failure? ==> r.failure.reasons != [] && r.failure.exception.None?
  {
    if events == [] then Fail([NoEvents])
    else if !AllSequenced(events) then Fail([UnsequencedEvent])
    else
      var sorted := SortBySequence(events);
      SortedElements(events);
      if !sorted[0].OrchardCreated? then Fail([NoLeadingCreation])
      else if HasLaterCreation(sorted) then Fail([MultipleCreations])
      else if !Contiguous(sorted) then Fail([MissingEvent])
      else
        match ApplyAll(Materialize(sorted[0]), sorted[1..])
        case Failure(f) => Failure(f)
        case Success(o) =>
          if !SameAggregate(sorted, sorted[0].aggregateId) then Fail([ForeignEvent]) else Success(o)
  }

  /** A well-formed history, stated on its events in ascending sequence order. */
  ghost predicate ValidSortedHistory(s: seq<ChangeEvent>) {
    && s != []
    && AllSequenced(s)
    && s[0].OrchardCreated?
    && (forall i :: 1 <= i < |s| ==> s[i].TreeAdded?)
    && Contiguous(s)
    && SameAggregate(s, s[0].aggregateId)
  }

  /** The events after the first are all tree-added events exactly when those of the tail are. */
  lemma TailKinds(s: seq<ChangeEvent>)
    requires s != []
    ensures (forall i :: 1 <= i < |s| ==> s[i].TreeAdded?) <==>
            (forall i :: 0 <= i < |s[1..]| ==> s[1..][i].TreeAdded?)
  {
    forall i | 1 <= i < |s| ensures s[i] == s[1..][i - 1] { }
  }

  /** A well-formed history replays to the orchard its creation and tree-added events describe. */
  lemma ReplayValidHistory(events: seq<ChangeEvent>)
    requires ValidSortedHistory(SortBySequence(events))
    ensures var s := SortBySequence(events);
            Replay(events) ==
              Success(OrchardState(s[0].aggregateId, s[0].name, TreesIn(s), Position(s[|s| - 1]), []))
  {
    var s := SortBySequence(events);
    SortedElements(events);
    assert AllSequenced(events);
    assert !HasLaterCreation(s);
    TailKinds(s);
    ApplyAllContents(Materialize(s[0]), s[1..]);
    assert TreesIn(s) == TreesIn(s[1..]);
    if |s| > 1 {
      assert s[1..][|s[1..]| - 1] == s[|s| - 1];
    }
  }

  /** A history that replays successfully is well-formed. */
  lemma ReplaySuccessIsValid(events: seq<ChangeEvent>)
    requires Replay(events).Success?
    ensures ValidSortedHistory(SortBySequence(events))
  {
    var s := SortBySequence(events);
    SortedElements(events);
    assert AllSequenced(s);
    TailKinds(s);
    ApplyAllContents(Materialize(s[0]), s[1..]);
  }

  /**
    Replay succeeds exactly on well-formed histories, and then the orchard has
    the creation event's id and name, the trees of the tree-added events in
    ascending sequence order, the last sequence number as its version, and no
    pending events.
   */
  lemma ReplayCharacterization(events: seq<ChangeEvent>)
    ensures Replay(events).Success? <==> ValidSortedHistory(SortBySequence(events))
    ensures Replay(events).Success? ==>
              var s := SortBySequence(events);
              Replay(events).value ==
                OrchardState(s[0].aggregateId, s[0].name, TreesIn(s), Position(s[|s| - 1]), [])
  {
    if Replay(events).Success? {
      ReplaySuccessIsValid(events);
    }
    if ValidSortedHistory(SortBySequence(events)) {
      ReplayValidHistory(events);
    }
  }

  /** A history with no creation event at all fails, however its tree-added events are numbered. */
  lemma ReplayWithoutCreation(events: seq<ChangeEvent>)
    requires forall i :: 0 <= i < |events| ==> !events[i].OrchardCreated?
    ensures Replay(events).Failure?
  {
    SortedElements(events);
    if events != [] && AllSequenced(events) {
      var s := SortBySequence(events);
      assert s[0] in events;
    }
  }

  /** Positions that increase strictly leave room for each element only once. */
  lemma {:induction false} StrictlySortedMultiplicity(s: seq<ChangeEvent>, x: ChangeEvent)
    ensures StrictlySorted(s) ==> multiset(s)[x] <= 1
  {
    if s != [] && StrictlySorted(s) {
      var t := s[1..];
      assert s == [s[0]] + t;
      StrictlySortedTail(s);
      StrictlySortedMultiplicity(t, x);
      assert s[0] !in t by {
        forall k | 0 <= k < |t| ensures t[k] != s[0] {
          assert t[k] == s[k + 1];
        }
      }
    }
  }

  /** An element found at two indices occurs at least twice. */
  lemma RepeatedMultiplicity(s: seq<ChangeEvent>, i: nat, j: nat)
    requires i < j < |s|
    ensures s[i] == s[j] ==> multiset(s)[s[i]] >= 2
  {
    assert s == s[..j] + [s[j]] + s[j + 1..];
    assert s[i] in s[..j];
  }

  /** When every event after the first adds a tree, a creation event can only be the first. */
  lemma OnlyHeadIsCreation(s: seq<ChangeEvent>, x: ChangeEvent)
    ensures (forall i :: 1 <= i < |s| ==> s[i].TreeAdded?) && x in s && x.OrchardCreated? ==> x == s[0]
  {
    if x in s {
      var k :| 0 <= k < |s| && s[k] == x;
    }
  }

  /** A history holding two creation events fails. */
  lemma ReplayTwoCreations(events: seq<ChangeEvent>, i: nat, j: nat)
    requires i < j < |events| && events[i].OrchardCreated? && events[j].OrchardCreated?
    ensures Replay(events).Failure?
  {
    var s := SortBySequence(events);
    SortedElements(events);
    assert events[i] in s && events[j] in s;
    OnlyHeadIsCreation(s, events[i]);
    OnlyHeadIsCreation(s, events[j]);
    ContiguousIsStrictlySorted(s);
    StrictlySortedMultiplicity(s, events[i]);
    RepeatedMultiplicity(events, i, j);
    ReplayCharacterization(events);
  }

  /** In a contiguous run, every position between two present ones is present. */
  lemma ContiguousCovers(s: seq<ChangeEvent>, x: ChangeEvent, y: ChangeEvent, p: nat)
    ensures (s != [] && Contiguous(s) && x in s && y in s && Position(x) < p < Position(y)) ==>
              && Position(s[0]) <= p < Position(s[0]) + |s|
              && Position(s[p - Position(s[0])]) == p
  {
  }

  /**
    A history in which some sequence number between two present ones has no
    event fails ("missing event in sequence").
   */
  lemma ReplayWithGap(events: seq<ChangeEvent>, i: nat, j: nat, p: nat)
    requires i < |events| && j < |events|
    requires Position(events[i]) < p < Position(events[j])
    requires forall k :: 0 <= k < |events| ==> Position(events[k]) != p
    ensures Replay(events).Failure?
  {
    var s := SortBySequence(events);
    SortedElements(events);
    assert events[i] in s && events[j] in s;
    ContiguousCovers(s, events[i], events[j], p);
    assert !Contiguous(s) by {
      forall k | 0 <= k < |s| ensures Position(s[k]) != p {
        assert s[k] in events;
        var m :| 0 <= m < |events| && events[m] == s[k];
      }
    }
    ReplayCharacterization(events);
  }

  /** A history holding an event of a kind the orchard does not handle fails. */
  lemma ReplayUnrecognized(events: seq<ChangeEvent>, i: nat)
    requires i < |events| && events[i].Unrecognized?
    ensures Replay(events).Failure?
  {
    ReplayCharacterization(events);
    SortedElements(events);
    assert events[i] in SortBySequence(events);
  }

  /** A history mixing events of two aggregates fails. */
  lemma ReplayForeign(events: seq<ChangeEvent>, i: nat, j: nat)
    requires i < |events| && j < |events| && events[i].aggregateId != events[j].aggregateId
    ensures Replay(events).Failure?
  {
    ReplayCharacterization(events);
    SortedElements(events);
    assert events[i] in SortBySequence(events) && events[j] in SortBySequence(events);
  }

  /** A history holding only its creation event gives the id and name that event carries. */
  lemma ReplayCreationOnly(id: Id, n: nat, name: string)
    ensures Replay([OrchardCreated(id, Some(n), name)]) == Success(OrchardState(id, name, [], n, []))
  {
  }

  lemma ContiguousIsStrictlySorted(s: seq<ChangeEvent>)
    ensures Contiguous(s) ==> StrictlySorted(s)
  {
  }

  /**
    The input order of a history does not matter: a history that replays
    successfully replays to the same orchard in any other order.
   */
  lemma ReplayOrderIrrelevant(a: seq<ChangeEvent>, b: seq<ChangeEvent>)
    requires multiset(a) == multiset(b)
    requires Replay(a).Success?
    ensures Replay(b) == Replay(a)
  {
    var sa, sb := SortBySequence(a), SortBySequence(b);
    assert sa == sb by {
      ReplayCharacterization(a);
      ContiguousIsStrictlySorted(sa);
      SortedPermutationUnique(sa, sb);
    }
    assert |a| == |multiset(a)| == |multiset(b)| == |b|;
    assert AllSequenced(a) == AllSequenced(b) by {
      forall e ensures e in a <==> e in b {
        assert e in a <==> e in multiset(a);
        assert e in b <==> e in multiset(b);
      }
    }
    ReplaySameSorted(a, b);
  }

  /** Replay looks at a history only through its emptiness, its numbering and its sorted order. */
  lemma ReplaySameSorted(a: seq<ChangeEvent>, b: seq<ChangeEvent>)
    requires (a == []) == (b == []) && AllSequenced(a) == AllSequenced(b)
    requires SortBySequence(a) == SortBySequence(b)
    ensures Replay(a) == Replay(b)
  {
  }

  /** `FromHistory`: the same replay, but a broken history throws an invalid-operation fault. */
  function FromHistory(events: seq<ChangeEvent>): (a: Attempt<OrchardState>)
    ensures a.Value? <==> Replay(events).Success?
    ensures a.Value? ==> a.value == Replay(events).value && a.value.pending == []
    ensures a.Thrown? ==>
              a.fault == Fault(InvalidOperation, Replay(events).failure.reasons[0])
  {
    match Replay(events)
    case Success(s) => Value(s)
    case Failure(f) => Thrown(Fault(InvalidOperation, f.reasons[0]))
  }

  // ---------------------------------------------------------------------------
  // Commands

  /** The business rule on tree types: the tests show "invalid" refused and every other type accepted. */
  predicate IsValidTreeType(treeType: string) {
    treeType != "invalid"
  }

  /** An event raised by a command: it is applied to the state and appended to the pending buffer. */
  function Raise(s: OrchardState, e: ChangeEvent): (r: OrchardState)
    requires e.TreeAdded?
    ensures r.pending == s.pending + [e]
    ensures r.trees == s.trees + TreeIn(e) && r.version == Position(e)
    ensures r.id == s.id && r.name == s.name
  {
    Apply(s, e).value.(pending := s.pending + [e])
  }

  /**
    `new Orchard(id, name)`: raises the creation event with sequence number 1
    and materializes it; the creation event is the only pending event.
   */
  function Create(id: Id, name: string): (s: OrchardState)
    ensures s.id == id && s.name == name && s.trees == [] && s.version == 1
    ensures s.pending == [OrchardCreated(id, Some(1), name)]
  {
    var e := OrchardCreated(id, Some(1), name);
    Materialize(e).(pending := [e])
  }

  /**
    `AddTree`: refuses an invalid tree type without raising anything;
    otherwise raises one tree-added event for this orchard, numbered after
    the current version.
   */
  function AddTree(s: OrchardState, treeId: Id, treeType: string): (r: Result<OrchardState>)
    ensures r.Success? <==> IsValidTreeType(treeType)
    ensures r.Success? ==>
              && r.value.pending == s.pending + [TreeAdded(s.id, Some(s.version + 1), treeId, treeType)]
              && r.value.trees == s.trees + [Tree(treeId, treeType)]
              && r.value.id == s.id && r.value.name == s.name && r.value.version == s.version + 1
    ensures r.Failure? ==> r.failure.reasons != []
  {
    if !IsValidTreeType(treeType) then Fail([InvalidTreeType])
    else Success(Raise(s, TreeAdded(s.id, Some(s.version + 1), treeId, treeType)))
  }

  /** `DoIncorrectCreation`: a second creation of an existing orchard is refused and raises nothing. */
  function DoIncorrectCreation(s: OrchardState, name: string): (r: Result<OrchardState>)
    ensures r.Failure? && r.failure.reasons != [] && r.failure.exception.None?
  {
    Fail([AlreadyCreated])
  }

  /** `ThrowException`: a step that throws an invalid-cast fault. */
  function ThrowException(s: OrchardState): (a: Attempt<Result<OrchardState>>)
    ensures a.Thrown? && a.fault.kind == InvalidCast
  {
    Thrown(Fault(InvalidCast, CastFault))
  }

  /**
    The state an orchard has after `new Orchard` and any number of commands:
    its pending events are the creation event followed by tree-added events
    for the same orchard, numbered 1, 2, 3, ..., and its trees and version
    are what those events say.
   */
  ghost predicate FreshlyCommanded(s: OrchardState) {
    && |s.pending| >= 1
    && s.pending[0] == OrchardCreated(s.id, Some(1), s.name)
    && (forall i :: 1 <= i < |s.pending| ==> s.pending[i].TreeAdded? && s.pending[i].aggregateId == s.id)
    && (forall i :: 0 <= i < |s.pending| ==> s.pending[i].sequence == Some(i + 1))
    && s.version == |s.pending|
    && s.trees == TreesIn(s.pending)
  }

  lemma CreateFreshlyCommanded(id: Id, name: string)
    ensures FreshlyCommanded(Create(id, name))
  {
    assert TreesIn([OrchardCreated(id, Some(1), name)]) == [];
  }

  lemma AddTreeFreshlyCommanded(s: OrchardState, treeId: Id, treeType: string)
    requires FreshlyCommanded(s) && AddTree(s, treeId, treeType).Success?
    ensures FreshlyCommanded(AddTree(s, treeId, treeType).value)
  {
    TreesInAppend(s.pending, TreeAdded(s.id, Some(s.version + 1), treeId, treeType));
  }

  /** The pending buffer of a freshly commanded orchard is already in sequence order and is a valid history. */
  lemma PendingEventsAreValidHistory(s: OrchardState)
    requires FreshlyCommanded(s)
    ensures SortBySequence(s.pending) == s.pending
    ensures ValidSortedHistory(s.pending)
  {
    var p := s.pending;
    PendingContiguous(s);
    ContiguousIsStrictlySorted(p);
    SortOfStrictlySorted(p);
    PendingSequencedAndOwned(s);
  }

  lemma PendingContiguous(s: OrchardState)
    requires FreshlyCommanded(s)
    ensures Contiguous(s.pending)
  {
  }

  lemma PendingSequencedAndOwned(s: OrchardState)
    requires FreshlyCommanded(s)
    ensures AllSequenced(s.pending) && SameAggregate(s.pending, s.id)
  {
    forall e | e in s.pending ensures e.sequence.Some? && e.aggregateId == s.id {
      var i :| 0 <= i < |s.pending| && s.pending[i] == e;
    }
  }

  /**
    The events commands raise reconstruct the orchard: replaying the pending
    buffer of a freshly commanded orchard gives back its state, with the
    buffer emptied.
   */
  lemma ReplayPendingEvents(s: OrchardState)
    requires FreshlyCommanded(s)
    ensures Replay(s.pending) == Success(s.(pending := []))
  {
    var p := s.pending;
    PendingEventsAreValidHistory(s);
    ReplayCharacterization(p);
    assert Position(p[|p| - 1]) == s.version;
  }

  /** ... and so does any reordering of that buffer. */
  lemma ReplayReorderedPendingEvents(s: OrchardState, events: seq<ChangeEvent>)
    requires FreshlyCommanded(s) && multiset(events) == multiset(s.pending)
    ensures Replay(events) == Success(s.(pending := []))
  {
    ReplayPendingEvents(s);
    ReplayOrderIrrelevant(s.pending, events);
  }
}
