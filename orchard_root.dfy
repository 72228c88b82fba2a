/**
  The orchard aggregate root as an object. The commands change its fields in
  place and append to its pending buffer; replay builds a new object step by
  step over the sorted history. Each method is proved against the value
  model in `Orchards`.
 */
module OrchardRoot {
  import opened Wrappers
  import opened Results
  import opened ChangeEvents
  import opened Orchards

  class Orchard {
    var id: Id
    var name: string
    var trees: seq<Tree>
    var version: nat
    var pendingChangeEvents: seq<ChangeEvent>

    /** The value the object's fields hold. */
    function State(): OrchardState
      reads this
    {
      OrchardState(id, name, trees, version, pendingChangeEvents)
    }

    /** `new Orchard(id, name)`: raises and applies the creation event. */
    constructor (id: Id, name: string)
      ensures State() == Create(id, name)
      ensures FreshlyCommanded(State())
    {
      this.id := id;
      this.name := name;
      trees := [];
      version := 1;
      pendingChangeEvents := [OrchardCreated(id, Some(1), name)];
      new;
      CreateFreshlyCommanded(id, name);
    }

    /** The object replay starts from: the state the creation event materializes, with no pending events. */
    constructor Materialized(creation: ChangeEvent)
      requires creation.OrchardCreated?
      ensures State() == Materialize(creation)
    {
      id := creation.aggregateId;
      name := creation.name;
      trees := [];
      version := Position(creation);
      pendingChangeEvents := [];
    }

    /** Dispatches one event to its apply handler; an event with no handler changes nothing. */
    method Apply(e: ChangeEvent) returns (r: Result<()>)
      modifies this
      ensures var spec := Orchards.Apply(old(State()), e);
              && (spec.Success? ==> r.Success? && State() == spec.value)
              && (spec.Failure? ==> r == Failure(spec.failure) && State() == old(State()))
    {
      match e
      case TreeAdded(_, _, treeId, treeType) =>
        trees := trees + [Tree(treeId, treeType)];
        version := Position(e);
        r := Done();
      case OrchardCreated(_, _, _) =>
        r := Fail([MultipleCreations]);
      case Unrecognized(_, _, _) =>
        r := Fail([UnrecognizedEventType]);
    }

    /** Applies a run of events one by one, stopping at the first that has no handler; the outcome is the fold `ApplyAll`. */
    method ApplyEach(es: seq<ChangeEvent>) returns (r: Result<()>)
      modifies this
      ensures var spec := ApplyAll(old(State()), es);
              && (spec.Success? ==> r.Success? && State() == spec.value)
              && (spec.Failure? ==> r == Failure(spec.failure))
    {
      ghost var target := ApplyAll(State(), es);
      var i := 0;
      while i < |es|
        invariant 0 <= i <= |es|
        invariant ApplyAll(State(), es[i..]) == target
      {
        assert es[i..][1..] == es[i + 1..];
        var applied := Apply(es[i]);
        if applied.Failure? {
          return Failure(applied.failure);
        }
        i := i + 1;
      }
      r := Done();
    }

    /** Applies a newly raised event and appends it to the pending buffer. */
    method Raise(e: ChangeEvent)
      requires e.TreeAdded?
      modifies this
      ensures State() == Orchards.Raise(old(State()), e)
      ensures pendingChangeEvents == old(pendingChangeEvents) + [e]
    {
      var applied := Apply(e);
      pendingChangeEvents := pendingChangeEvents + [e];
    }

    /**
      `AddTree`: an invalid tree type is refused and nothing changes;
      otherwise exactly one tree-added event for this orchard is appended to
      the pending buffer and the tree is planted.
     */
    method AddTree(treeId: Id, treeType: string) returns (r: Result<Orchard>)
      modifies this
      ensures var spec := Orchards.AddTree(old(State()), treeId, treeType);
              && (spec.Success? ==> r == Success(this) && State() == spec.value)
              && (spec.Failure? ==> r == Failure(spec.failure) && State() == old(State()))
      ensures r.Success? ==>
                && pendingChangeEvents == old(pendingChangeEvents) + [TreeAdded(id, Some(old(version) + 1), treeId, treeType)]
                && pendingChangeEvents[|pendingChangeEvents| - 1].aggregateId == id
      ensures old(FreshlyCommanded(State())) ==> FreshlyCommanded(State())
    {
      if !IsValidTreeType(treeType) {
        r := Fail([InvalidTreeType]);
        return;
      }
      ghost var before := State();
      Raise(TreeAdded(id, Some(version + 1), treeId, treeType));
      r := Success(this);
      if FreshlyCommanded(before) {
        AddTreeFreshlyCommanded(before, treeId, treeType);
      }
    }

    /** `DoIncorrectCreation`: a second creation is refused; the object, and its pending buffer, do not change. */
    method DoIncorrectCreation(newName: string) returns (r: Result<Orchard>)
      ensures r.Failure? && r.failure == Orchards.DoIncorrectCreation(State(), newName).failure
    {
      r := Fail([AlreadyCreated]);
    }

    /**
      `FromHistoryRaw`: checks the history, then applies its events one by one
      in ascending sequence order to a new orchard, and last checks that every
      event belongs to that orchard. The outcome is the one `Replay` describes.
     */
    static method FromHistoryRaw(events: seq<ChangeEvent>) returns (r: Result<Orchard>)
      ensures r.Success? <==> Replay(events).Success?
      ensures r.Success? ==> fresh(r.value) && r.value.State() == Replay(events).value
      ensures r.Failure? ==> r.failure == Replay(events).failure
    {
      if events == [] {
        return Fail([NoEvents]);
      }
      if !AllSequenced(events) {
        return Fail([UnsequencedEvent]);
      }
      var sorted := SortBySequence(events);
      SortedElements(events);
      if !sorted[0].OrchardCreated? {
        return Fail([NoLeadingCreation]);
      }
      if HasLaterCreation(sorted) {
        return Fail([MultipleCreations]);
      }
      if !Contiguous(sorted) {
        return Fail([MissingEvent]);
      }
      ghost var folded := ApplyAll(Materialize(sorted[0]), sorted[1..]);
      assert folded.Failure? ==> Replay(events) == folded;
      var o := new Orchard.Materialized(sorted[0]);
      var applied := o.ApplyEach(sorted[1..]);
      if applied.Failure? {
        return Failure(applied.failure);
      }
      if !SameAggregate(sorted, sorted[0].aggregateId) {
        return Fail([ForeignEvent]);
      }
      r := Success(o);
    }

    /** `FromHistory`: the same replay; a broken history throws an invalid-operation fault. */
    static method FromHistory(events: seq<ChangeEvent>) returns (a: Attempt<Orchard>)
      ensures a.Value? <==> Orchards.FromHistory(events).Value?
      ensures a.Value? ==> fresh(a.value) && a.value.State() == Orchards.FromHistory(events).value
      ensures a.Thrown? ==> a.fault == Orchards.FromHistory(events).fault
    {
      var r := FromHistoryRaw(events);
      match r
      case Success(o) =>
        a := Value(o);
      case Failure(f) =>
        a := Thrown(Fault(InvalidOperation, f.reasons[0]));
    }
  }

  /**
    The test fixture: the second creation of an orchard with one tree does
    not succeed, and the orchard keeps a tree-added event, not a creation event, at the end of its
    pending buffer.
   */
  method SecondCreationLeavesBuffer(id: Id, name: string, treeId: Id, treeType: string)
    returns (recreated: bool, last: ChangeEvent)
    requires IsValidTreeType(treeType)
    ensures !recreated
    ensures last.TreeAdded? && last.aggregateId == id
  {
    var orchard := new Orchard(id, name);
    var added := orchard.AddTree(treeId, treeType);
    var refused := orchard.DoIncorrectCreation("Bad orchard");
    recreated := Succeeded(refused);
    last := orchard.pendingChangeEvents[|orchard.pendingChangeEvents| - 1];
  }
}
