/**
 * The node registry of src/graph/state.js: `byId` (id -> node), the clickable
 * ring `nodeObjects` and the `centeredNode` slot, bound to the scene's
 * `nodeGroup`.
 */
module GraphState {
  import opened Wrappers
  import opened Lists
  import opened SceneGraph

  /** `currentSynIdsFromScene`: the ids of the ring entries flagged `isSynonym`, in ring order. */
  function SynonymIds(nodes: seq<Node>): (ids: seq<string>)
    reads nodes
    requires forall n :: n in nodes ==> HasId(n)
    ensures |ids| <= |nodes|
    ensures forall x :: x in ids ==> exists n :: n in nodes && n.isSynonym && n.id == Some(x)
    ensures forall n :: n in nodes && n.isSynonym ==> HasId(n) && n.id.value in ids
  {
    if nodes == [] then []
    else
      assert nodes[0] in nodes && HasId(nodes[0]);
      var rest := SynonymIds(nodes[1..]);
      assert nodes == [nodes[0]] + nodes[1..];
      if nodes[0].isSynonym then [nodes[0].id.value] + rest else rest
  }

  /**
   * Ring order is kept: the ids of two stretches of the ring are those of the
   * first followed by those of the second (and one entry contributes its id
   * exactly when it is flagged `isSynonym`).
   */
  lemma {:induction false} SynonymIdsInOrder(a: seq<Node>, b: seq<Node>)
    requires forall n :: n in a + b ==> HasId(n)
    ensures SynonymIds(a + b) == SynonymIds(a) + SynonymIds(b)
  {
    if a == [] {
      assert a + b == b;
    } else {
      var ab := a + b;
      assert ab[0] == a[0] && ab[1..] == a[1..] + b;
      SynonymIdsInOrder(a[1..], b);
      SynonymIdsCons(a);
      SynonymIdsCons(ab);
    }
  }

  lemma SynonymIdsCons(nodes: seq<Node>)
    requires nodes != [] && HasId(nodes[0]) && forall n :: n in nodes ==> HasId(n)
    ensures SynonymIds(nodes) == (if nodes[0].isSynonym then [nodes[0].id.value] else []) + SynonymIds(nodes[1..])
  {
  }

  /** The nodes that have an id, in order: those `registerNode` accepts. */
  function WithIds(nodes: seq<Node>): seq<Node> {
    if nodes == [] then []
    else if HasId(nodes[0]) then [nodes[0]] + WithIds(nodes[1..])
    else WithIds(nodes[1..])
  }

  /** `WithIds` keeps exactly the nodes that have an id, in their order. */
  lemma {:induction false} WithIdsKeeps(nodes: seq<Node>)
    ensures forall n :: n in WithIds(nodes) <==> n in nodes && HasId(n)
    ensures IsSubseq(WithIds(nodes), nodes)
  {
    if nodes != [] {
      WithIdsKeeps(nodes[1..]);
      assert nodes == [nodes[0]] + nodes[1..];
      if HasId(nodes[0]) {
        assert ([nodes[0]] + WithIds(nodes[1..]))[1..] == WithIds(nodes[1..]);
      }
    }
  }

  /** `registerNode` applied to `nodes` in turn, as far as `byId` goes. */
  function RegisterAll(m: map<string, Node>, nodes: seq<Node>): map<string, Node> {
    if nodes == [] then m
    else
      var last := nodes[|nodes| - 1];
      var r0 := RegisterAll(m, nodes[..|nodes| - 1]);
      if HasId(last) then r0[last.id.value := last] else r0
  }

  /**
   * Registering a list of nodes files exactly their ids on top of `m`; each id
   * then names one of the nodes carrying it (the last such, in list order).
   */
  lemma {:induction false} RegisterAllFiles(m: map<string, Node>, nodes: seq<Node>)
    ensures RegisterAll(m, nodes).Keys == m.Keys + IdsOf(nodes)
    ensures forall k :: k in m && k !in IdsOf(nodes) ==> RegisterAll(m, nodes)[k] == m[k]
    ensures forall k :: k in IdsOf(nodes) ==> RegisterAll(m, nodes)[k] in nodes && RegisterAll(m, nodes)[k].id == Some(k)
  {
    if nodes != [] {
      var init := nodes[..|nodes| - 1];
      var last := nodes[|nodes| - 1];
      assert nodes == init + [last];
      assert IdsOf(nodes) == IdsOf(init) + (if HasId(last) then {last.id.value} else {});
      RegisterAllFiles(m, init);
    }
  }

  /**
   * What `registerNode`/`removeNode` maintain: no node twice in the ring or in
   * the group, ring nodes carry ids, and `byId` files each node under its own id.
   */
  ghost predicate Consistent(byId: map<string, Node>, ring: seq<Node>, children: seq<Node>) {
    && NoDup(ring)
    && NoDup(children)
    && (forall n :: n in ring ==> HasId(n))
    && (forall k :: k in byId ==> k != "" && byId[k].id == Some(k))
  }

  /** `removeNode`'s three updates keep the invariant. */
  lemma RemovalConsistent(byId: map<string, Node>, ring: seq<Node>, children: seq<Node>, obj: Node,
                          byId': map<string, Node>, ring': seq<Node>, children': seq<Node>)
    requires Consistent(byId, ring, children)
    requires byId' == if HasId(obj) then byId - {obj.id.value} else byId
    requires ring' == RemoveFirst(ring, obj) && children' == RemoveFirst(children, obj)
    ensures Consistent(byId', ring', children')
  {
    RemoveFirstNoDup(ring, obj);
    RemoveFirstNoDup(children, obj);
    RemoveFirstCount(ring, obj);
    forall n | n in ring' ensures HasId(n) {
      assert multiset(ring')[n] > 0;
    }
  }

  /** One more `removeNode` in a loop over `nodes`: each of the three differences grows by the next node. */
  lemma RemoveStep(nodes: seq<Node>, i: nat, byId0: map<string, Node>, ring0: seq<Node>, children0: seq<Node>,
                   byId: map<string, Node>, ring: seq<Node>, children: seq<Node>)
    requires i < |nodes| && NoDup(ring0) && NoDup(children0)
    requires byId == byId0 - IdsOf(nodes[..i])
    requires ring == Subtract(ring0, nodes[..i])
    requires children == Subtract(children0, nodes[..i])
    ensures (if HasId(nodes[i]) then byId - {nodes[i].id.value} else byId) == byId0 - IdsOf(nodes[..i + 1])
    ensures RemoveFirst(ring, nodes[i]) == Subtract(ring0, nodes[..i + 1])
    ensures RemoveFirst(children, nodes[i]) == Subtract(children0, nodes[..i + 1])
  {
    var c := nodes[i];
    assert nodes[..i + 1] == nodes[..i] + [c];
    assert IdsOf(nodes[..i + 1]) == IdsOf(nodes[..i]) + (if HasId(c) then {c.id.value} else {});
    RemoveFirstAfterSubtract(ring0, nodes[..i], c);
    RemoveFirstAfterSubtract(children0, nodes[..i], c);
  }

  class Registry {
    const group: Group
    var byId: map<string, Node>
    var ring: seq<Node>
    var centered: Node?

    /** The registry invariant, over the current fields. */
    ghost predicate Valid()
      reads this, group
    {
      Consistent(byId, ring, group.children)
    }

    constructor (g: Group)
      requires NoDup(g.children)
      ensures Valid() && group == g
      ensures byId == map[] && ring == [] && centered == null
    {
      group := g;
      byId := map[];
      ring := [];
      centered := null;
    }

    /** `nodeById`: the node registered under `id`, which carries that id. */
    function NodeById(id: string): (n: Option<Node>)
      reads this, group
      requires Valid()
      ensures n.Some? <==> id in byId
      ensures n.Some? ==> n.value == byId[id] && n.value.id == Some(id)
    {
      if id in byId then Some(byId[id]) else None
    }

    /** `setCentered`. */
    method SetCentered(obj: Node?)
      modifies this`centered
      ensures centered == obj
    {
      centered := obj;
    }

    /**
     * `registerNode`: a node without an id changes nothing; otherwise it is filed
     * under its id (replacing any earlier node) and, when flagged `isSynonym`,
     * appended to the ring unless it is already there.
     */
    method RegisterNode(obj: Node?)
      requires Valid()
      modifies this`byId, this`ring
      ensures Valid()
      ensures obj == null || !HasId(obj) ==> byId == old(byId) && ring == old(ring)
      ensures obj != null && HasId(obj) ==> byId == old(byId)[obj.id.value := obj]
      ensures obj != null && HasId(obj) ==>
        ring == if obj.isSynonym && obj !in old(ring) then old(ring) + [obj] else old(ring)
    {
      if obj == null || !HasId(obj) {
        return;
      }
      byId := byId[obj.id.value := obj];
      if obj.isSynonym {
        if obj !in ring {
          ring := ring + [obj];
        }
      }
    }

    /**
     * `removeNode`: detach from the group, forget the id (whichever node `byId`
     * holds for it) and splice the node out of the ring.
     */
    method RemoveNode(obj: Node)
      requires Valid()
      modifies this`byId, this`ring, group`children
      ensures Valid()
      ensures group.children == RemoveFirst(old(group.children), obj)
      ensures byId == if HasId(obj) then old(byId) - {obj.id.value} else old(byId)
      ensures ring == RemoveFirst(old(ring), obj)
    {
      ghost var byId' := if HasId(obj) then byId - {obj.id.value} else byId;
      ghost var ring', children' := RemoveFirst(ring, obj), RemoveFirst(group.children, obj);
      RemovalConsistent(byId, ring, group.children, obj, byId', ring', children');
      group.Remove(obj);
      if HasId(obj) {
        byId := byId - {obj.id.value};
      }
      ring := RemoveFirst(ring, obj);
    }

    /**
     * `removeNode` on each of `nodes` in turn: their ids leave `byId` and the
     * nodes leave the ring and the group; everything else stays.
     */
    method RemoveAll(nodes: seq<Node>)
      requires Valid()
      modifies this`byId, this`ring, group`children
      ensures Valid()
      ensures group.children == Subtract(old(group.children), nodes)
      ensures byId == old(byId) - IdsOf(nodes)
      ensures ring == Subtract(old(ring), nodes)
    {
      ghost var byId0, ring0, children0 := byId, ring, group.children;
      SubtractNothing(ring0);
      SubtractNothing(children0);
      var i := 0;
      while i < |nodes|
        invariant 0 <= i <= |nodes|
        invariant Valid() && NoDup(ring0) && NoDup(children0)
        invariant group.children == Subtract(children0, nodes[..i])
        invariant byId == byId0 - IdsOf(nodes[..i])
        invariant ring == Subtract(ring0, nodes[..i])
      {
        RemoveStep(nodes, i, byId0, ring0, children0, byId, ring, group.children);
        RemoveNode(nodes[i]);
        i := i + 1;
      }
      assert nodes[..i] == nodes;
    }

    /**
     * `clearNodeGroup`: `removeNode` on a snapshot of the children.  The group
     * ends empty, every former child's id leaves `byId` and every former child
     * leaves the ring; other ring entries and `byId` keys stay.
     */
    method ClearNodeGroup()
      requires Valid()
      modifies this`byId, this`ring, group`children
      ensures Valid()
      ensures group.children == []
      ensures byId == old(byId) - IdsOf(old(group.children))
      ensures ring == Subtract(old(ring), old(group.children))
    {
      var children := group.children;
      RemoveAll(children);
      SubtractCovered(children, children);
    }
  }

  /** Removing a node twice leaves the registry and group as removing it once. */
  lemma RemoveNodeIdempotent(byId: map<string, Node>, ring: seq<Node>, children: seq<Node>, obj: Node)
    requires NoDup(ring) && NoDup(children)
    ensures RemoveFirst(RemoveFirst(ring, obj), obj) == RemoveFirst(ring, obj)
    ensures RemoveFirst(RemoveFirst(children, obj), obj) == RemoveFirst(children, obj)
    ensures HasId(obj) ==> (byId - {obj.id.value}) - {obj.id.value} == byId - {obj.id.value}
  {
    RemoveFirstIdempotent(ring, obj);
    RemoveFirstIdempotent(children, obj);
  }
}
