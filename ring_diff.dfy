/**
 * The id-level diff of `transitionToNode` (src/flow/transition.js): which ids
 * of the old ring stay (`shared`), which collapse away (`former`) and which
 * are new (`current`).
 */
module RingDiff {
  import opened Wrappers
  import opened Lists

  datatype Split = Split(a: seq<string>, aplus: seq<string>, shared: seq<string>, former: seq<string>, current: seq<string>)

  /**
   * `A` is the ring's synonym ids without the clicked id, `Aplus` adds the old
   * centre's id (de-duplicating), and `B` is the fetched ids.  `shared` are the
   * `Aplus` ids still fetched, `former` the `A` ids no longer fetched and
   * `current` the fetched ids not on screen.  The three are pairwise disjoint;
   * every `A` id is shared or former and every `B` id is shared or current.
   */
  function Diff(a0: seq<string>, newCenter: string, prevCenter: Option<string>, b: seq<string>): (d: Split)
    ensures forall x :: x in d.a <==> x in a0 && x != newCenter
    ensures forall x :: x in d.aplus <==> x in d.a || (Present(prevCenter) && x == prevCenter.value)
    ensures forall x :: x in d.shared <==> x in d.aplus && x in b
    ensures forall x :: x in d.former <==> x in d.a && x !in b
    ensures forall x :: x in d.current <==> x in b && x !in d.aplus
    ensures forall x :: !(x in d.shared && x in d.former)
    ensures forall x :: !(x in d.shared && x in d.current)
    ensures forall x :: !(x in d.former && x in d.current)
    ensures forall x :: x in d.a ==> x in d.shared || x in d.former
    ensures forall x :: x in b ==> x in d.shared || x in d.current
    ensures newCenter !in d.former
    ensures IsSubseq(d.shared, d.aplus) && IsSubseq(d.former, d.a) && IsSubseq(d.current, b)
  {
    var a := Subtract(a0, [newCenter]);
    var aplus := if Present(prevCenter) then Dedup(a + [prevCenter.value]) else a;
    FiltersKeepOrder(aplus, b);
    FiltersKeepOrder(a, b);
    FiltersKeepOrder(b, aplus);
    Split(a, aplus, Intersect(aplus, b), Subtract(a, b), Subtract(b, aplus))
  }

  /** The old centre's id is shared exactly when it is fetched again, and it is never counted as new. */
  lemma OldCenterShared(a0: seq<string>, newCenter: string, prev: string, b: seq<string>)
    requires prev != ""
    ensures prev in Diff(a0, newCenter, Some(prev), b).shared <==> prev in b
    ensures prev !in Diff(a0, newCenter, Some(prev), b).current
  {
  }

  /**
   * The shape of the worked example: the ring holds the clicked id and one
   * other id, the old centre is fetched again together with two new ids.
   */
  lemma DiffShape(clicked: string, stale: string, prev: string, new1: string, new2: string)
    requires prev != ""
    requires clicked != stale && clicked != prev && stale != prev
    requires stale != new1 && stale != new2 && prev != new1 && prev != new2
    ensures Diff([clicked, stale], clicked, Some(prev), [new1, prev, new2])
      == Split([stale], [stale, prev], [prev], [stale], [new1, new2])
  {
    var b := [new1, prev, new2];
    DropClicked(clicked, stale);
    KeepPair(stale, prev);
    SharedOne(stale, prev, b);
    KeepOne(stale, b);
    FreshPair(new1, prev, new2, [stale, prev]);
  }

  lemma DropClicked(x: string, y: string)
    requires x != y
    ensures Subtract([x, y], [x]) == [y]
  {
    assert [x, y][1..] == [y];
    assert [y][1..] == [];
    assert Subtract([y], [x]) == [y];
  }

  lemma KeepPair(x: string, y: string)
    requires x != y
    ensures Dedup([x, y]) == [x, y]
  {
    assert [x, y][..1] == [x];
    assert [x][..0] == [];
  }

  lemma SharedOne(x: string, y: string, b: seq<string>)
    requires x !in b && y in b
    ensures Intersect([x, y], b) == [y]
  {
    assert [x, y][1..] == [y];
    assert [y][1..] == [];
    assert Intersect([y], b) == [y];
  }

  lemma KeepOne(x: string, b: seq<string>)
    requires x !in b
    ensures Subtract([x], b) == [x]
  {
    assert [x][1..] == [];
  }

  lemma FreshPair(x: string, y: string, z: string, seen: seq<string>)
    requires x !in seen && y in seen && z !in seen
    ensures Subtract([x, y, z], seen) == [x, z]
  {
    assert [x, y, z][1..] == [y, z];
    assert [y, z][1..] == [z];
    KeepOne(z, seen);
  }

  /** Clicking the ring synonym "money" of the centre "bank" when the new document lists cash, bank and wealth. */
  lemma DiffExample()
    ensures Diff(["money", "river"], "money", Some("bank"), ["cash", "bank", "wealth"])
      == Split(["river"], ["river", "bank"], ["bank"], ["river"], ["cash", "wealth"])
  {
    DiffShape("money", "river", "bank", "cash", "wealth");
  }
}
