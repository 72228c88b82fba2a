/**
  The behaviour the aggregate tests pin down, stated for all ids, names and
  tree ids: rehydration from histories the fixture builds, and the command
  chains built with `Then`.
 */
module OrchardScenarios {
  import opened Wrappers
  import opened Results
  import opened ChangeEvents
  import opened Orchards

  /** Every tree of the list has a type `AddTree` accepts. */
  predicate ValidTrees(trees: seq<Tree>) {
    forall k :: 0 <= k < |trees| ==> IsValidTreeType(trees[k].treeType)
  }

  /** The fixture's orchard after `new Orchard(id, name)` and `AddTree` once per tree, in list order. */
  function Planted(id: Id, name: string, trees: seq<Tree>): (s: OrchardState)
    requires ValidTrees(trees)
    ensures FreshlyCommanded(s)
    ensures s.id == id && s.name == name && s.trees == trees && |s.pending| == |trees| + 1
    ensures forall k :: 0 <= k < |trees| ==>
              s.pending[k + 1] == TreeAdded(id, Some(k + 2), trees[k].id, trees[k].treeType)
    decreases |trees|
  {
    if trees == [] then
      CreateFreshlyCommanded(id, name);
      Create(id, name)
    else
      var last := trees[|trees| - 1];
      var before := Planted(id, name, trees[..|trees| - 1]);
      AddTreeFreshlyCommanded(before, last.id, last.treeType);
      assert trees == trees[..|trees| - 1] + [last];
      AddTree(before, last.id, last.treeType).value
  }

  /** A history holding only the fixture's creation event rehydrates the orchard's id and name. */
  lemma CreationRehydratesIdAndName(id: Id, name: string)
    ensures Replay(Create(id, name).pending) == Success(OrchardState(id, name, [], 1, []))
  {
  }

  /** A creation event built outside the aggregate has no sequence number, and rehydrating it throws. */
  lemma HandBuiltCreationThrows(id: Id, name: string)
    ensures FromHistory([OrchardCreated(id, None, name)]).Thrown?
    ensures FromHistory([OrchardCreated(id, None, name)]).fault.kind == InvalidOperation
  {
    assert !AllSequenced([OrchardCreated(id, None, name)]);
  }

  /** Swapping the two tree-added events of a commanded orchard replays to the same orchard. */
  lemma SwappedTreeEventsReplay(s: OrchardState)
    requires FreshlyCommanded(s) && |s.pending| == 3
    ensures Replay([s.pending[0], s.pending[2], s.pending[1]]) == Replay(s.pending)
    ensures Replay(s.pending) == Success(s.(pending := []))
  {
    var p := s.pending;
    var h := [p[0], p[2], p[1]];
    assert multiset(h) == multiset(p) by {
      assert p == [p[0], p[1], p[2]];
    }
    ReplayReorderedPendingEvents(s, h);
    ReplayPendingEvents(s);
  }

  /**
    The creation event and the two tree-added events the fixture raises
    rehydrate to the two trees, with their ids and types, in sequence order,
    whether the tree events are given in order or not.
   */
  lemma TreesRehydrateInSequenceOrder(id: Id, name: string, tree1: Tree, tree2: Tree)
    requires IsValidTreeType(tree1.treeType) && IsValidTreeType(tree2.treeType)
    ensures var s := Planted(id, name, [tree1, tree2]);
            && Replay([s.pending[0], s.pending[2], s.pending[1]]) == Replay(s.pending)
            && Replay(s.pending) == Success(s.(pending := []))
            && Replay(s.pending).value.trees == [tree1, tree2]
  {
    assert ValidTrees([tree1, tree2]);
    var s := Planted(id, name, [tree1, tree2]);
    SwappedTreeEventsReplay(s);
  }

  /** Leaving out the second of three tree-added events (sequence number 3) makes rehydration throw. */
  lemma MissingEventThrows(id: Id, name: string, trees: seq<Tree>)
    requires |trees| == 3 && ValidTrees(trees)
    ensures var p := Planted(id, name, trees).pending;
            FromHistory([p[0], p[1], p[3]]).Thrown?
  {
    var p := Planted(id, name, trees).pending;
    var h := [p[0], p[1], p[3]];
    ReplayWithGap(h, 1, 2, 3);
  }

  /** Tree-added events without their creation event make rehydration throw. */
  lemma NoCreationThrows(id: Id, name: string, trees: seq<Tree>)
    requires |trees| == 3 && ValidTrees(trees)
    ensures var p := Planted(id, name, trees).pending;
            FromHistory([p[1], p[2], p[3]]).Thrown?
  {
    var p := Planted(id, name, trees).pending;
    ReplayWithoutCreation([p[1], p[2], p[3]]);
  }

  /** A tree-added event built by hand for the orchard's id (no sequence number, no creation) makes rehydration throw. */
  lemma FakeCreationThrows(id: Id, treeId: Id)
    ensures FromHistory([TreeAdded(id, None, treeId, "apple")]).Thrown?
  {
    assert !AllSequenced([TreeAdded(id, None, treeId, "apple")]);
  }

  /** Rehydration consumes the history: the pending buffer of the result is empty. */
  lemma RehydrationKeepsNoEvents(id: Id, name: string, tree: Tree)
    requires IsValidTreeType(tree.treeType)
    ensures var p := Planted(id, name, [tree]).pending;
            && Replay([p[0], p[1]]).Success?
            && Replay([p[0], p[1]]).value.pending == []
  {
    var s := Planted(id, name, [tree]);
    ReplayPendingEvents(s);
    assert s.pending == [s.pending[0], s.pending[1]];
  }

  /**
    An event of a kind the orchard has no handler for, belonging to another
    aggregate and numbered 2 with `SetSequence`, makes `FromHistoryRaw` fail,
    and the missing handler is the reason reported.
   */
  lemma UnknownEventFails(id: Id, name: string, otherId: Id, kind: string)
    ensures SetSequence(Unrecognized(otherId, None, kind), 2).Success?
    ensures var h := [Create(id, name).pending[0], SetSequence(Unrecognized(otherId, None, kind), 2).value];
            && HasFailed(Replay(h))
            && Replay(h) == Fail([UnrecognizedEventType])
  {
    var h := [OrchardCreated(id, Some(1), name), Unrecognized(otherId, Some(2), kind)];
    assert SortBySequence(h) == h by {
      assert StrictlySorted(h);
      SortOfStrictlySorted(h);
    }
    assert h[1..] == [h[1]];
  }

  /** The events of the fixture carry the orchard's id, the creation event first. */
  lemma EventsCarryAggregateId(id: Id, name: string, trees: seq<Tree>)
    requires ValidTrees(trees)
    ensures Planted(id, name, trees).pending[0].OrchardCreated?
    ensures forall e :: e in Planted(id, name, trees).pending ==> e.aggregateId == id
  {
    var s := Planted(id, name, trees);
    forall e | e in s.pending ensures e.aggregateId == id {
      var i :| 0 <= i < |s.pending| && s.pending[i] == e;
    }
  }

  // ---------------------------------------------------------------------------
  // Chains

  /** A step that plants one tree. */
  function Plant(treeId: Id, treeType: string): Step<OrchardState, OrchardState> {
    o => Value(AddTree(o, treeId, treeType))
  }

  /** `Orchard.Create().AddTree("maple").Then(o => o.AddTree("orange")).Then(o => o.AddTree("apple"))`. */
  function BindCreation(id: Id, name: string, t1: Id, t2: Id, t3: Id): Result<OrchardState> {
    Then(Then(AddTree(Create(id, name), t1, "maple"), Plant(t2, "orange")), Plant(t3, "apple"))
  }

  /** The same chain with "invalid" as its last tree type. */
  function InvalidBindCreation(id: Id, name: string, t1: Id, t2: Id, t3: Id): Result<OrchardState> {
    Then(Then(AddTree(Create(id, name), t1, "maple"), Plant(t2, "orange")), Plant(t3, "invalid"))
  }

  /**
    The chain succeeds with the three trees in call order and four pending
    events, and those events rehydrate the same orchard.
   */
  lemma BindingSucceeds(id: Id, name: string, t1: Id, t2: Id, t3: Id)
    ensures BindCreation(id, name, t1, t2, t3).Success?
    ensures var s := BindCreation(id, name, t1, t2, t3).value;
            && s.trees == [Tree(t1, "maple"), Tree(t2, "orange"), Tree(t3, "apple")]
            && |s.pending| == 4
            && Replay(s.pending) == Success(s.(pending := []))
  {
    var s0 := Create(id, name);
    var s1 := AddTree(s0, t1, "maple").value;
    var s2 := AddTree(s1, t2, "orange").value;
    var s3 := AddTree(s2, t3, "apple").value;
    assert BindCreation(id, name, t1, t2, t3) == Success(s3);
    assert FreshlyCommanded(s3) by {
      CreateFreshlyCommanded(id, name);
      AddTreeFreshlyCommanded(s0, t1, "maple");
      AddTreeFreshlyCommanded(s1, t2, "orange");
      AddTreeFreshlyCommanded(s2, t3, "apple");
    }
    ReplayPendingEvents(s3);
  }

  /** A chain whose last step is refused fails without any exception and reports why. */
  lemma InvalidBindingFails(id: Id, name: string, t1: Id, t2: Id, t3: Id)
    ensures InvalidBindCreation(id, name, t1, t2, t3).Failure?
    ensures ExpectFailureAndGet(InvalidBindCreation(id, name, t1, t2, t3)).value ==
              Failed([InvalidTreeType], None)
  {
  }

  /**
    A step that throws after a successful chain: the chain fails, its reasons
    are not empty (the fault's message), and its exception is the invalid-cast
    fault that was thrown.
   */
  lemma ExceptionInBindingIsCaptured(id: Id, name: string, t1: Id, t2: Id, t3: Id)
    ensures var r := Then(BindCreation(id, name, t1, t2, t3), ThrowException);
            && r.Failure?
            && ExpectFailureAndGet(r).value.reasons == [CastFault]
            && ExpectFailureAndGet(r).value.exception == Some(Fault(InvalidCast, CastFault))
  {
    BindingSucceeds(id, name, t1, t2, t3);
  }

  /** Mapping the chain's orchard to its name gives the name of the orchard the chain built. */
  lemma MappingGivesName(id: Id, name: string, t1: Id, t2: Id, t3: Id)
    ensures var r := Then(BindCreation(id, name, t1, t2, t3), (o: OrchardState) => Value(Success(o.name)));
            ExpectSuccessAndGet(r) == Value(ExpectSuccessAndGet(BindCreation(id, name, t1, t2, t3)).value.name)
  {
    BindingSucceeds(id, name, t1, t2, t3);
  }

  /** A fault thrown inside a mapping step becomes the first failure reason. */
  lemma FaultInMappingGivesMessage(id: Id, name: string, t1: Id, t2: Id, t3: Id, message: string)
    ensures var r := Then(BindCreation(id, name, t1, t2, t3),
                          (o: OrchardState) => Thrown(Fault(GeneralFault, message)));
            && ExpectFailureAndGet<string>(r).Value?
            && ExpectFailureAndGet<string>(r).value.reasons[0] == message
  {
    BindingSucceeds(id, name, t1, t2, t3);
  }

  /** A unit-valued step that throws makes the chain fail. */
  lemma FaultInUnitStepFails(id: Id, name: string, t1: Id, t2: Id, t3: Id, message: string)
    ensures Then<OrchardState, ()>(BindCreation(id, name, t1, t2, t3),
                                   (o: OrchardState) => Thrown(Fault(GeneralFault, message))).Failure?
  {
    BindingSucceeds(id, name, t1, t2, t3);
  }
}
