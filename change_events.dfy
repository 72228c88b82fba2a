/**
  The change events of the orchard aggregate, exactly the kinds the source
  shows: the creation event, the tree-added event, and an event of a kind the
  aggregate has no apply handler for (the test's `FakeEvent`). Every event
  carries the id of its aggregate and a sequence number that is unset until
  it is assigned once.
 */
module ChangeEvents {
  import opened Wrappers
  import opened Results

  /** Identifiers (the source's GUIDs) are abstract values. */
  type Id = nat

  datatype ChangeEvent =
    | OrchardCreated(aggregateId: Id, sequence: Option<nat>, name: string)
    | TreeAdded(aggregateId: Id, sequence: Option<nat>, treeId: Id, treeType: string)
    | Unrecognized(aggregateId: Id, sequence: Option<nat>, kind: string)

  const SequenceAlreadySet := "The sequence number of an event can only be set once"

  /**
    `SetSequence`: assigns the sequence number of an event that has none;
    an event whose number is already set is refused and left unchanged.
   */
  function SetSequence(e: ChangeEvent, n: nat): (r: Result<ChangeEvent>)
    ensures r.Success? <==> e.sequence.None?
    ensures r.Success? ==> r.value.sequence == Some(n) && r.value == e.(sequence := Some(n))
    ensures r.Failure? ==> |r.failure.reasons| > 0
  {
    if e.sequence.Some? then Fail([SequenceAlreadySet]) else Success(e.(sequence := Some(n)))
  }

  /** The second assignment of a sequence number fails, whatever the first was. */
  lemma SetSequenceTwice(e: ChangeEvent, m: nat, n: nat)
    requires SetSequence(e, m).Success?
    ensures SetSequence(SetSequence(e, m).value, n).Failure?
  {
  }

  /** The sort key: the sequence number, with an unset number read as 0 (replay refuses those first). */
  function Position(e: ChangeEvent): nat {
    match e.sequence
    case Some(n) => n
    case None => 0
  }

  ghost predicate Sorted(s: seq<ChangeEvent>) {
    forall i, j :: 0 <= i < j < |s| ==> Position(s[i]) <= Position(s[j])
  }

  ghost predicate StrictlySorted(s: seq<ChangeEvent>) {
    forall i, j :: 0 <= i < j < |s| ==> Position(s[i]) < Position(s[j])
  }

  /** Puts `e` before the first element whose position is not smaller, so that equal positions keep their order. */
  function Insert(e: ChangeEvent, s: seq<ChangeEvent>): (r: seq<ChangeEvent>)
    ensures multiset(r) == multiset(s) + multiset{e}
  {
    if s == [] then [e]
    else if Position(e) <= Position(s[0]) then [e] + s
    else
      assert s == [s[0]] + s[1..];
      [s[0]] + Insert(e, s[1..])
  }

  /** The tail of a sorted sequence is sorted. */
  lemma SortedTail(s: seq<ChangeEvent>)
    requires Sorted(s) && s != []
    ensures Sorted(s[1..])
  {
    var t := s[1..];
    forall i, j | 0 <= i < j < |t| ensures Position(t[i]) <= Position(t[j]) {
      assert t[i] == s[i + 1] && t[j] == s[j + 1];
    }
  }

  /** The tail of a strictly sorted sequence is strictly sorted. */
  lemma StrictlySortedTail(s: seq<ChangeEvent>)
    requires StrictlySorted(s) && s != []
    ensures StrictlySorted(s[1..])
  {
    var t := s[1..];
    forall i, j | 0 <= i < j < |t| ensures Position(t[i]) < Position(t[j]) {
      assert t[i] == s[i + 1] && t[j] == s[j + 1];
    }
  }

  /** An element no later than the head of a sorted sequence can be put in front of it. */
  lemma SortedCons(x: ChangeEvent, s: seq<ChangeEvent>)
    requires Sorted(s) && (s != [] ==> Position(x) <= Position(s[0]))
    ensures Sorted([x] + s)
  {
    var r := [x] + s;
    forall i, j | 0 <= i < j < |r| ensures Position(r[i]) <= Position(r[j]) {
      assert r[j] == s[j - 1];
      if i > 0 {
        assert r[i] == s[i - 1];
      }
    }
  }

  /** The first element of an insertion is the inserted element or the old head. */
  lemma InsertHead(e: ChangeEvent, s: seq<ChangeEvent>)
    ensures Insert(e, s)[0] == e || (s != [] && Insert(e, s)[0] == s[0])
  {
  }

  /** Inserting into a sorted sequence keeps it sorted. */
  lemma {:induction false} InsertSorted(e: ChangeEvent, s: seq<ChangeEvent>)
    requires Sorted(s)
    ensures Sorted(Insert(e, s))
  {
    if s == [] {
    } else if Position(e) <= Position(s[0]) {
      SortedCons(e, s);
    } else {
      var t := s[1..];
      SortedTail(s);
      InsertSorted(e, t);
      InsertHead(e, t);
      assert t != [] ==> Position(s[0]) <= Position(t[0]);
      SortedCons(s[0], Insert(e, t));
    }
  }

  /** Stable insertion sort by sequence number, the order replay applies events in. */
  function SortBySequence(s: seq<ChangeEvent>): (r: seq<ChangeEvent>)
    ensures Sorted(r)
    ensures multiset(r) == multiset(s)
  {
    if s == [] then []
    else
      assert s == [s[0]] + s[1..];
      var rest := SortBySequence(s[1..]);
      InsertSorted(s[0], rest);
      Insert(s[0], rest)
  }

  /** Sorting keeps the length and the elements. */
  lemma SortedElements(s: seq<ChangeEvent>)
    ensures |SortBySequence(s)| == |s|
    ensures forall e :: e in SortBySequence(s) <==> e in s
  {
    var r := SortBySequence(s);
    assert |multiset(r)| == |multiset(s)|;
    forall e ensures e in r <==> e in s {
      assert e in r <==> e in multiset(r);
      assert e in s <==> e in multiset(s);
    }
  }

  /** The first elements of a strictly sorted sequence and of a sorted permutation of it agree. */
  lemma HeadsAgree(a: seq<ChangeEvent>, b: seq<ChangeEvent>)
    requires StrictlySorted(a) && Sorted(b) && multiset(a) == multiset(b) && a != [] && b != []
    ensures a[0] == b[0]
  {
    assert a[0] in multiset(b) && b[0] in multiset(a);
    var j :| 0 <= j < |a| && a[j] == b[0];
    var k :| 0 <= k < |b| && b[k] == a[0];
    assert Position(b[0]) <= Position(b[k]);
  }

  /**
    A sequence with strictly increasing positions is the only sorted
    arrangement of its elements: any sorted permutation of it is equal to it.
   */
  lemma {:induction false} SortedPermutationUnique(a: seq<ChangeEvent>, b: seq<ChangeEvent>)
    requires StrictlySorted(a) && Sorted(b) && multiset(a) == multiset(b)
    ensures a == b
    decreases |a|
  {
    assert |a| == |multiset(a)| == |multiset(b)| == |b|;
    if a != [] {
      HeadsAgree(a, b);
      var a', b' := a[1..], b[1..];
      assert a == [a[0]] + a' && b == [b[0]] + b';
      assert multiset(a') == multiset(a) - multiset{a[0]};
      assert multiset(b') == multiset(b) - multiset{b[0]};
      StrictlySortedTail(a);
      SortedTail(b);
      SortedPermutationUnique(a', b');
    }
  }

  /** A sequence already in strictly increasing order is left as it is by the sort. */
  lemma SortOfStrictlySorted(s: seq<ChangeEvent>)
    requires StrictlySorted(s)
    ensures SortBySequence(s) == s
  {
    SortedPermutationUnique(s, SortBySequence(s));
  }
}
