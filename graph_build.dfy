/**
 * `buildGraph` of src/graph/geometry.js: empty the group, put a centre node for
 * the document at the origin, then one node per entry of `linked_synonyms` at
 * that entry's position, registering each as it is added.
 */
module GraphBuild {
  import opened Wrappers
  import opened Vectors
  import opened Lists
  import opened TermDocs
  import opened SceneGraph
  import opened GraphState

  /** The node `buildGraph` creates for synonym `s`. */
  predicate ShowsSynonym(n: Node, s: Synonym)
    reads n
  {
    n.id == s.id && n.term == Some(s.term) && n.pos == s.pos && n.isSynonym && !n.isCenter
  }

  /** `WithIds` grows at the end as the list does. */
  lemma {:induction false} WithIdsAppend(nodes: seq<Node>, n: Node)
    ensures WithIds(nodes + [n]) == WithIds(nodes) + (if HasId(n) then [n] else [])
  {
    if nodes != [] {
      assert (nodes + [n])[1..] == nodes[1..] + [n];
      WithIdsAppend(nodes[1..], n);
    }
  }

  /** Nodes drawn one per synonym report exactly the synonyms' present ids, in list order. */
  lemma {:induction false} SynonymIdsOfDrawn(nodes: seq<Node>, list: seq<Synonym>)
    requires |nodes| == |list|
    requires forall j :: 0 <= j < |nodes| ==> ShowsSynonym(nodes[j], list[j])
    ensures forall n :: n in WithIds(nodes) ==> HasId(n)
    ensures SynonymIds(WithIds(nodes)) == PresentIds(list)
  {
    if nodes != [] {
      SynonymIdsOfDrawn(nodes[1..], list[1..]);
      var rest := WithIds(nodes[1..]);
      if HasId(nodes[0]) {
        assert WithIds(nodes) == [nodes[0]] + rest;
        assert ([nodes[0]] + rest)[1..] == rest;
      }
    }
  }

  /**
   * `buildGraph(doc)`: the former children leave the group, the ring and
   * `byId`; the group then holds the new centre followed by one new node per
   * synonym, in list order; the ring gains the synonym nodes that have an id,
   * and `byId` files the new nodes (the last one per id wins).  A
   * `linked_synonyms` that is absent or not an array yields the centre alone.
   */
  method BuildGraph(reg: Registry, doc: TermDoc) returns (center: Node)
    requires reg.Valid()
    modifies reg`byId, reg`ring, reg.group`children, reg.group`center
    ensures reg.Valid()
    ensures fresh(center) && reg.group.center == center
    ensures center.id == doc.id && center.term == doc.term && center.pos == Zero
    ensures center.isCenter && !center.isSynonym
    ensures |reg.group.children| == 1 + |SynonymList(doc.linked)| && reg.group.children[0] == center
    ensures forall j :: 1 <= j < |reg.group.children| ==>
      fresh(reg.group.children[j]) && ShowsSynonym(reg.group.children[j], SynonymList(doc.linked)[j - 1])
    ensures reg.ring == Subtract(old(reg.ring), old(reg.group.children)) + WithIds(reg.group.children[1..])
    ensures reg.byId == RegisterAll(old(reg.byId) - IdsOf(old(reg.group.children)), reg.group.children)
  {
    ghost var byId0 := reg.byId - IdsOf(reg.group.children);
    reg.ClearNodeGroup();
    center := PlaceCenter(reg, doc);
    ghost var drawn := DrawSynonyms(reg, SynonymList(doc.linked));
    assert reg.group.children == [center] + drawn;
    assert reg.group.children[1..] == drawn;
    RegisterAllConcat(byId0, [center], drawn);
  }

  /** The centre part of `buildGraph`: a new node for the document at the origin, added, registered and marked as the group's centre. */
  method PlaceCenter(reg: Registry, doc: TermDoc) returns (center: Node)
    requires reg.Valid()
    modifies reg`byId, reg`ring, reg.group`children, reg.group`center
    ensures reg.Valid()
    ensures fresh(center) && reg.group.center == center
    ensures center.id == doc.id && center.term == doc.term && center.pos == Zero
    ensures center.isCenter && !center.isSynonym
    ensures reg.group.children == old(reg.group.children) + [center]
    ensures reg.ring == old(reg.ring)
    ensures reg.byId == RegisterAll(old(reg.byId), [center])
  {
    center := new Node(doc.id, doc.term, Zero, false, true);
    AddAndRegister(reg, center);
    reg.group.center := center;
    assert [center][..0] == [];
  }

  /** The synonym part of `buildGraph`: one new node per entry, in list order, each added and registered. */
  method DrawSynonyms(reg: Registry, list: seq<Synonym>) returns (ghost drawn: seq<Node>)
    requires reg.Valid()
    modifies reg`byId, reg`ring, reg.group`children
    ensures reg.Valid()
    ensures |drawn| == |list|
    ensures forall j :: 0 <= j < |drawn| ==> fresh(drawn[j]) && ShowsSynonym(drawn[j], list[j])
    ensures reg.group.children == old(reg.group.children) + drawn
    ensures reg.ring == old(reg.ring) + WithIds(drawn)
    ensures reg.byId == RegisterAll(old(reg.byId), drawn)
  {
    drawn := [];
    var i := 0;
    while i < |list|
      invariant 0 <= i <= |list| && |drawn| == i
      invariant reg.Valid()
      invariant forall j :: 0 <= j < i ==> fresh(drawn[j]) && ShowsSynonym(drawn[j], list[j])
      invariant reg.group.children == old(reg.group.children) + drawn
      invariant reg.ring == old(reg.ring) + WithIds(drawn)
      invariant reg.byId == RegisterAll(old(reg.byId), drawn)
    {
      var syn := list[i];
      var sprite := new Node(syn.id, Some(syn.term), syn.pos, true, false);
      assert sprite !in drawn;
      AddAndRegister(reg, sprite);
      WithIdsAppend(drawn, sprite);
      assert (drawn + [sprite])[..i] == drawn;
      drawn := drawn + [sprite];
      i := i + 1;
    }
  }

  /** Registering `xs` then `ys` is registering `xs + ys`. */
  lemma {:induction false} RegisterAllConcat(m: map<string, Node>, xs: seq<Node>, ys: seq<Node>)
    ensures RegisterAll(m, xs + ys) == RegisterAll(RegisterAll(m, xs), ys)
    decreases |ys|
  {
    if ys == [] {
      assert xs + ys == xs;
    } else {
      var init := ys[..|ys| - 1];
      assert xs + ys == (xs + init) + [ys[|ys| - 1]];
      RegisterAllConcat(m, xs, init);
    }
  }

  /** `nodeGroup.add(n); registerNode(n);` for a node that is in neither the group nor the ring. */
  method AddAndRegister(reg: Registry, n: Node)
    requires reg.Valid() && n !in reg.group.children && n !in reg.ring
    modifies reg`byId, reg`ring, reg.group`children
    ensures reg.Valid()
    ensures reg.group.children == old(reg.group.children) + [n]
    ensures reg.ring == old(reg.ring) + (if HasId(n) && n.isSynonym then [n] else [])
    ensures reg.byId == if HasId(n) then old(reg.byId)[n.id.value := n] else old(reg.byId)
  {
    reg.group.Add(n);
    NoDupSnoc(old(reg.group.children), n);
    reg.RegisterNode(n);
  }

  lemma NoDupSnoc<T>(s: seq<T>, x: T)
    requires NoDup(s) && x !in s
    ensures NoDup(s + [x])
  {
  }

  /**
   * When every ring entry is a child of the group, as `buildGraph` leaves it,
   * rebuilding leaves the ring holding exactly the new synonym nodes that have
   * an id, and `currentSynIdsFromScene` then reports the document's present
   * synonym ids in list order.
   */
  lemma RebuiltRing(ring: seq<Node>, children: seq<Node>, drawn: seq<Node>, list: seq<Synonym>)
    requires forall n :: n in ring ==> n in children
    requires |drawn| == |list|
    requires forall j :: 0 <= j < |drawn| ==> ShowsSynonym(drawn[j], list[j])
    ensures Subtract(ring, children) + WithIds(drawn) == WithIds(drawn)
    ensures forall n :: n in WithIds(drawn) ==> HasId(n)
    ensures SynonymIds(Subtract(ring, children) + WithIds(drawn)) == PresentIds(list)
  {
    assert Subtract(ring, children) == [];
    SynonymIdsOfDrawn(drawn, list);
  }
}
