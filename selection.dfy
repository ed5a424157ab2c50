/**
 * The set algebra behind the lamp-skill dialog: how one batch of selection
 * changes, reported by the list view's change cursor, turns the chosen set
 * of skills into a new one.
 *
 * A batch is a sequence of sub-changes. An "updated" or "permutated"
 * sub-change does not touch membership; any other sub-change inserts its
 * added items and then deletes its removed items. Reading the added or the
 * removed items can fault (an index-out-of-bounds error of the toolkit); the
 * dialog then throws the set away and refills it from the full selected list.
 */
module Selection {

  /** The elements of a sequence, as a set. */
  function Elems<T>(xs: seq<T>): set<T> {
    set x | x in xs
  }

  /** No element occurs twice. */
  predicate Distinct<T(==)>(xs: seq<T>) {
    forall i, j :: 0 <= i < j < |xs| ==> xs[i] != xs[j]
  }

  /** `order` is one iteration order of the set `s`: each member exactly once. */
  predicate Enumerates<T(==)>(order: seq<T>, s: set<T>) {
    Distinct(order) && Elems(order) == s
  }

  /** An enumeration of a set has as many entries as the set has members. */
  lemma {:induction false} EnumerationSize<T>(order: seq<T>, s: set<T>)
    requires Enumerates(order, s)
    ensures |order| == |s|
  {
    if order != [] {
      var last := order[|order| - 1];
      var init := order[..|order| - 1];
      assert order == init + [last];
      assert Distinct(init);
      forall j | 0 <= j < |init| ensures init[j] != last {
        assert init[j] == order[j];
      }
      assert Elems(init) == s - {last} by {
        forall x ensures x in Elems(init) <==> x in s - {last} {
          if x in init {
            var j :| 0 <= j < |init| && init[j] == x;
            assert order[j] == x;
          }
          if x in order && x != last {
            var j :| 0 <= j < |order| && order[j] == x;
            assert init[j] == x;
          }
        }
      }
      EnumerationSize(init, s - {last});
    }
  }

  /** Where applying a sub-change raises the toolkit's index fault, if anywhere. */
  datatype Fault = NoFault | OnAdded | OnRemoved

  /**
   * One sub-change of the change cursor. `AddRemove` stands for every
   * sub-change that is neither an update nor a permutation; `fault` says
   * whether reading its added list or its removed list faults.
   */
  datatype Change<T> =
    | Updated
    | Permuted
    | AddRemove(added: seq<T>, removed: seq<T>, fault: Fault)

  /**
   * Applying `c` raises the fault: the added items are only read when there
   * are some, and the removed items only when there are some.
   */
  predicate Faults<T>(c: Change<T>) {
    c.AddRemove? &&
    ((c.fault == OnAdded && |c.added| > 0) || (c.fault == OnRemoved && |c.removed| > 0))
  }

  /**
   * The chosen set after one sub-change; `current` is the full selected list,
   * used to resynchronise when the sub-change faults.
   */
  function ApplyChange<T>(s: set<T>, c: Change<T>, current: seq<T>): (r: set<T>)
    ensures r <= s + Elems(current) + (if c.AddRemove? then Elems(c.added) else {})
    ensures c.AddRemove? && !Faults(c) ==> r !! Elems(c.removed)
  {
    match c
    case Updated => s
    case Permuted => s
    case AddRemove(added, removed, _) =>
      if Faults(c) then Elems(current) else (s + Elems(added)) - Elems(removed)
  }

  /** The chosen set after the sub-changes of `cs`, applied strictly in order. */
  function ApplyBatch<T>(s: set<T>, cs: seq<Change<T>>, current: seq<T>): (r: set<T>)
    ensures r <= s + Elems(current) + AllAdded(cs)
    decreases |cs|
  {
    if cs == [] then s
    else ApplyChange(ApplyBatch(s, cs[..|cs| - 1], current), cs[|cs| - 1], current)
  }

  /** Updates and permutations leave the chosen set as it was. */
  lemma UpdatedOrPermutedKeepsSet<T>(s: set<T>, c: Change<T>, current: seq<T>)
    requires c.Updated? || c.Permuted?
    ensures ApplyChange(s, c, current) == s
  {
  }

  /**
   * A sub-change that does not fault yields (old + added) - removed: the
   * additions happen first, so an item both added and removed ends up absent.
   */
  lemma AddThenRemove<T>(s: set<T>, c: Change<T>, current: seq<T>, x: T)
    requires c.AddRemove? && !Faults(c)
    ensures x in ApplyChange(s, c, current) <==> (x in s || x in c.added) && x !in c.removed
    ensures x in c.added && x in c.removed ==> x !in ApplyChange(s, c, current)
  {
  }

  /** Adding an item that is already chosen changes nothing. */
  lemma AddPresentIsNoop<T>(s: set<T>, x: T, fault: Fault, current: seq<T>)
    requires x in s && fault != OnAdded
    ensures ApplyChange(s, AddRemove([x], [], fault), current) == s
  {
  }

  /** Removing an item that is not chosen changes nothing. */
  lemma RemoveAbsentIsNoop<T>(s: set<T>, x: T, fault: Fault, current: seq<T>)
    requires x !in s && fault != OnRemoved
    ensures ApplyChange(s, AddRemove([], [x], fault), current) == s
  {
  }

  /**
   * A faulting sub-change leaves exactly the elements of the full selected
   * list, whatever the set held before (a partial add included).
   */
  lemma FaultResynchronises<T>(s: set<T>, c: Change<T>, current: seq<T>)
    requires Faults(c)
    ensures ApplyChange(s, c, current) == Elems(current)
  {
  }

  /** Processing a batch in two pieces is processing it whole. */
  lemma {:induction false} BatchSplit<T>(s: set<T>, a: seq<Change<T>>, b: seq<Change<T>>, current: seq<T>)
    ensures ApplyBatch(s, a + b, current) == ApplyBatch(ApplyBatch(s, a, current), b, current)
    decreases |b|
  {
    if b == [] {
      assert a + b == a;
    } else {
      var b' := b[..|b| - 1];
      assert (a + b)[..|a + b| - 1] == a + b';
      assert (a + b)[|a + b| - 1] == b[|b| - 1];
      BatchSplit(s, a, b', current);
    }
  }

  /**
   * A fault at sub-change k does not stop the batch: the result is the full
   * selected list with the later sub-changes applied on top, and it does not
   * depend on the set the batch started from.
   */
  lemma {:induction false} FaultForgetsHistory<T>(s: set<T>, cs: seq<Change<T>>, k: nat, current: seq<T>)
    requires k < |cs| && Faults(cs[k])
    ensures ApplyBatch(s, cs, current) == ApplyBatch(Elems(current), cs[k + 1..], current)
  {
    var head := cs[..k + 1];
    assert cs == head + cs[k + 1..];
    BatchSplit(s, head, cs[k + 1..], current);
    assert head[..|head| - 1] == cs[..k];
    assert head[|head| - 1] == cs[k];
  }

  /** A batch whose last sub-change faults leaves exactly the selected list. */
  lemma LastFaultMatchesSelection<T>(s: set<T>, cs: seq<Change<T>>, current: seq<T>)
    requires cs != [] && Faults(cs[|cs| - 1])
    ensures ApplyBatch(s, cs, current) == Elems(current)
  {
  }

  /** The sub-changes that can touch membership, in their original order. */
  function Incremental<T>(cs: seq<Change<T>>): (r: seq<Change<T>>)
    ensures forall i :: 0 <= i < |r| ==> r[i].AddRemove?
    decreases |cs|
  {
    if cs == [] then []
    else if cs[|cs| - 1].AddRemove? then Incremental(cs[..|cs| - 1]) + [cs[|cs| - 1]]
    else Incremental(cs[..|cs| - 1])
  }

  /** Dropping every update and permutation from a batch does not change its outcome. */
  lemma {:induction false} BatchIgnoresUpdatesAndPermutations<T>(s: set<T>, cs: seq<Change<T>>, current: seq<T>)
    ensures ApplyBatch(s, cs, current) == ApplyBatch(s, Incremental(cs), current)
    decreases |cs|
  {
    if cs != [] {
      var init := cs[..|cs| - 1];
      BatchIgnoresUpdatesAndPermutations(s, init, current);
      if cs[|cs| - 1].AddRemove? {
        var r := Incremental(init) + [cs[|cs| - 1]];
        assert r[..|r| - 1] == Incremental(init);
      }
    }
  }

  /** Every item a batch adds, over all its sub-changes. */
  function AllAdded<T>(cs: seq<Change<T>>): set<T>
    decreases |cs|
  {
    if cs == [] then {}
    else
      var last := cs[|cs| - 1];
      AllAdded(cs[..|cs| - 1]) + (if last.AddRemove? then Elems(last.added) else {})
  }

  /**
   * The chosen set stays inside the candidate domain when it starts there
   * and the selected list and every added item are drawn from it.
   */
  lemma {:induction false} BatchStaysInDomain<T>(s: set<T>, cs: seq<Change<T>>, current: seq<T>, domain: set<T>)
    requires s <= domain && Elems(current) <= domain && AllAdded(cs) <= domain
    ensures ApplyBatch(s, cs, current) <= domain
  {
  }

  /**
   * Sub-changes are not commutative: adding then removing an item leaves it
   * out, removing then adding leaves it in.
   */
  lemma OrderMatters<T>(x: T, current: seq<T>)
    ensures x !in ApplyBatch({}, [AddRemove([x], [], NoFault), AddRemove([], [x], NoFault)], current)
    ensures x in ApplyBatch({}, [AddRemove([], [x], NoFault), AddRemove([x], [], NoFault)], current)
  {
  }

  /** Starting from {B, D}, adding A and removing D gives {A, B}. */
  lemma AddRemoveScenario<T>(a: T, b: T, d: T, current: seq<T>)
    requires a != d && b != d
    ensures ApplyBatch({b, d}, [AddRemove([a], [], NoFault), AddRemove([], [d], NoFault)], current) == {a, b}
  {
    var add: Change<T> := AddRemove([a], [], NoFault);
    var remove: Change<T> := AddRemove([], [d], NoFault);
    assert [add, remove][..1] == [add];
    assert [add][..0] == [];
    assert Elems([a]) == {a} && Elems([d]) == {d};
    assert ApplyBatch({b, d}, [add], current) == {a, b, d};
  }

  /** Starting from {A}, an add of B that faults while the list holds A, B, C gives {A, B, C}. */
  lemma FaultScenario<T>(a: T, b: T, c: T)
    ensures ApplyBatch({a}, [AddRemove([b], [], OnAdded)], [a, b, c]) == {a, b, c}
  {
  }

  /**
   * What a sub-change says about the selected list: an add/remove sub-change
   * takes the removed items out and puts the added items in; updates and
   * permutations keep membership.
   */
  ghost predicate Describes<T>(c: Change<T>, before: set<T>, after: set<T>) {
    match c
    case Updated => after == before
    case Permuted => after == before
    case AddRemove(added, removed, _) => after == (before - Elems(removed)) + Elems(added)
  }

  /**
   * `states` is the history of the selected list's membership through the
   * batch: sub-change k takes states[k] to states[k + 1].
   */
  ghost predicate Chain<T>(cs: seq<Change<T>>, states: seq<set<T>>) {
    |states| == |cs| + 1 &&
    forall k :: 0 <= k < |cs| ==> Describes(cs[k], states[k], states[k + 1])
  }

  /** No sub-change both adds and removes the same item. */
  ghost predicate DisjointLists<T>(cs: seq<Change<T>>) {
    forall k :: 0 <= k < |cs| && cs[k].AddRemove? ==> Elems(cs[k].added) !! Elems(cs[k].removed)
  }

  ghost predicate Touches<T>(c: Change<T>, x: T) {
    c.AddRemove? && (x in c.added || x in c.removed)
  }

  /** No sub-change from index i on mentions x. */
  ghost predicate UntouchedFrom<T>(cs: seq<Change<T>>, i: nat, x: T) {
    forall j :: i <= j < |cs| ==> !Touches(cs[j], x)
  }

  /** An item no later sub-change mentions keeps its membership to the end of the history. */
  lemma {:induction false} StableUntilEnd<T>(cs: seq<Change<T>>, states: seq<set<T>>, i: nat, x: T)
    requires Chain(cs, states) && i <= |cs| && UntouchedFrom(cs, i, x)
    ensures x in states[i] <==> x in states[|cs|]
    decreases |cs| - i
  {
    if i < |cs| {
      assert Describes(cs[i], states[i], states[i + 1]);
      assert !Touches(cs[i], x);
      StableUntilEnd(cs, states, i + 1, x);
    }
  }

  /**
   * After the first i sub-changes, the chosen set agrees with the selected
   * list's membership on every item the rest of the batch does not mention.
   */
  lemma {:induction false} TrackedAt<T>(cs: seq<Change<T>>, states: seq<set<T>>, current: seq<T>, i: nat, x: T)
    requires Chain(cs, states) && DisjointLists(cs) && states[|cs|] == Elems(current)
    requires i <= |cs| && UntouchedFrom(cs, i, x)
    ensures x in ApplyBatch(states[0], cs[..i], current) <==> x in states[i]
    decreases i
  {
    if i > 0 {
      var c := cs[i - 1];
      var prefix := cs[..i];
      assert prefix[..|prefix| - 1] == cs[..i - 1];
      assert prefix[|prefix| - 1] == c;
      var before := ApplyBatch(states[0], cs[..i - 1], current);
      assert ApplyBatch(states[0], prefix, current) == ApplyChange(before, c, current);
      assert Describes(c, states[i - 1], states[i]);
      if Faults(c) {
        StableUntilEnd(cs, states, i, x);
      } else if !Touches(c, x) {
        TrackedAt(cs, states, current, i - 1, x);
      } else {
        assert Elems(c.added) !! Elems(c.removed);
      }
    } else {
      assert cs[..0] == [];
    }
  }

  /**
   * The synchronisation's promise: when each sub-change truthfully describes
   * how the selected list changed, and none both adds and removes the same
   * item, the batch leaves the chosen set equal to the final selected list.
   * This holds whatever sub-changes fault, and wherever in the batch.
   */
  lemma BatchTracksSelection<T(!new)>(cs: seq<Change<T>>, states: seq<set<T>>, current: seq<T>)
    requires Chain(cs, states) && DisjointLists(cs) && states[|cs|] == Elems(current)
    ensures ApplyBatch(states[0], cs, current) == Elems(current)
  {
    var result := ApplyBatch(states[0], cs, current);
    forall x ensures x in result <==> x in states[|cs|] {
      TrackedAt(cs, states, current, |cs|, x);
      assert cs[..|cs|] == cs;
    }
  }

  /**
   * Without disjoint lists the promise fails: a sub-change that removes x and
   * adds it back leaves x selected, but additions run before removals, so x
   * is dropped from the chosen set.
   */
  lemma ReAddedItemIsDropped<T>(x: T, current: seq<T>)
    ensures Describes(AddRemove([x], [x], NoFault), {x}, {x})
    ensures ApplyChange({x}, AddRemove([x], [x], NoFault), current) == {}
  {
    assert Elems([x]) == {x};
  }
}
