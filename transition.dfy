/**
 * `transitionToNode` of src/flow/transition.js: clicking a ring node makes it
 * the new centre.  The document is fetched, the ring's ids are split against
 * the fetched ids, the group is recentred on the clicked node, the old centre
 * either rejoins the ring or collapses away, former synonyms collapse, new ones
 * get fresh sprites, and the ring is finally pruned to the fetched ids.
 *
 * The awaits of the source are the points where a newer transition can
 * cancel this one; which of them is hit, and how far the animations got, is
 * the `Interruption` input.
 */
module Transition {
  import opened Wrappers
  import opened Vectors
  import opened Lists
  import opened TermDocs
  import opened SceneGraph
  import opened GraphState
  import opened RingDiff
  import opened Cancellation
  import opened Recenter
  import opened Stagger

  /** What `loadTermById` did: it threw, or it returned a document or nothing. */
  datatype Fetch = Threw | Returned(doc: Option<TermDoc>)

  /**
   * Where a newer transition (its `begin`) cancels this one, if at all:
   * while the document is being fetched, during the recentering (after the
   * frame with progress `t`), or while the expansion animations run.  In
   * the last case `fired` delays had fired (in the order they were started),
   * the first `collapsed` of the former collapses they started had reached
   * their last frame (the collapses run equally long, so they end in the
   * order they started), and `centerCollapsed` says whether the old centre's
   * collapse, which starts once every task is done, had too.
   */
  datatype Interruption =
    | Undisturbed
    | DuringFetch
    | DuringRecenter(t: real)
    | DuringAnimations(fired: nat, collapsed: nat, centerCollapsed: bool)

  /** How the call ends; `Stalled` is a call whose promise never settles. */
  datatype Outcome =
    | NoId | FetchFailed | CancelledInFetch | NoTerm | BadSynonyms
    | CancelledInRecenter | Stalled | Finished

  /** The fetched ids `B` of a fetch outcome (none when there is no document). */
  function FetchedIds(f: Fetch): seq<string> {
    if f.Returned? && f.doc.Some? then PresentIds(SynonymList(f.doc.value.linked)) else []
  }

  // ----- the ring entries kept by the final prune -----

  /** The prune keeps a ring entry without an id, or whose id was fetched. */
  predicate Keeps(n: Node, b: seq<string>) {
    !HasId(n) || n.id.value in b
  }

  /** The ring after the prune, in order. */
  function Pruned(ring: seq<Node>, b: seq<string>): seq<Node> {
    if ring == [] then []
    else (if Keeps(ring[0], b) then [ring[0]] else []) + Pruned(ring[1..], b)
  }

  /** The prune keeps exactly the entries `Keeps` accepts, in their order. */
  lemma {:induction false} PrunedKeeps(ring: seq<Node>, b: seq<string>)
    ensures forall n :: n in Pruned(ring, b) <==> n in ring && Keeps(n, b)
    ensures IsSubseq(Pruned(ring, b), ring)
  {
    if ring != [] {
      PrunedKeeps(ring[1..], b);
      assert ring == [ring[0]] + ring[1..];
      if Keeps(ring[0], b) {
        assert ([ring[0]] + Pruned(ring[1..], b))[1..] == Pruned(ring[1..], b);
      } else {
        assert [] + Pruned(ring[1..], b) == Pruned(ring[1..], b);
      }
    }
  }

  /** Pruning twice is pruning once. */
  lemma {:induction false} PruneIdempotent(ring: seq<Node>, b: seq<string>)
    ensures Pruned(Pruned(ring, b), b) == Pruned(ring, b)
  {
    if ring != [] {
      PruneIdempotent(ring[1..], b);
      if Keeps(ring[0], b) {
        assert ([ring[0]] + Pruned(ring[1..], b))[1..] == Pruned(ring[1..], b);
      } else {
        assert [] + Pruned(ring[1..], b) == Pruned(ring[1..], b);
      }
    }
  }

  /**
   * The closing loop of `transitionToNode`: walking the ring from the end, an
   * entry with an id that is not among the fetched ids is spliced out.
   */
  method PruneRing(reg: Registry, b: seq<string>)
    requires reg.Valid()
    modifies reg`ring
    ensures reg.Valid()
    ensures reg.ring == Pruned(old(reg.ring), b)
    ensures forall n :: n in reg.ring ==> n in old(reg.ring) && HasId(n) && n.id.value in b
  {
    PrunedConsistent(reg.byId, reg.ring, reg.group.children, b);
    reg.ring := Prune(reg.ring, b);
  }

  /** The splicing loop itself, on the ring's entries. */
  method Prune(ring: seq<Node>, b: seq<string>) returns (r: seq<Node>)
    ensures r == Pruned(ring, b)
  {
    r := ring;
    var i := |r|;
    while i > 0
      invariant 0 <= i <= |ring|
      invariant r == ring[..i] + Pruned(ring[i..], b)
    {
      i := i - 1;
      PrunedStep(ring, i, b);
      ghost var tail := Pruned(ring[i + 1..], b);
      assert ring[..i + 1] == ring[..i] + [ring[i]];
      assert r == ring[..i] + [ring[i]] + tail;
      var id := r[i].id;
      if Present(id) && id.value !in b {
        SpliceOut(ring[..i], ring[i], tail);
        r := r[..i] + r[i + 1..];
      } else {
        assert ring[..i] + [ring[i]] + tail == ring[..i] + ([ring[i]] + tail);
      }
    }
    assert ring[0..] == ring && ring[..0] == [];
  }

  /** Pruning the ring keeps the registry invariant and leaves only fetched ids. */
  lemma PrunedConsistent(byId: map<string, Node>, ring: seq<Node>, children: seq<Node>, b: seq<string>)
    requires Consistent(byId, ring, children)
    ensures Consistent(byId, Pruned(ring, b), children)
    ensures forall n :: n in Pruned(ring, b) ==> n in ring && HasId(n) && n.id.value in b
  {
    PrunedKeeps(ring, b);
    SubseqNoDup(Pruned(ring, b), ring);
  }

  /** `Pruned` unfolded at index `i`. */
  lemma PrunedStep(ring: seq<Node>, i: nat, b: seq<string>)
    requires i < |ring|
    ensures Pruned(ring[i..], b) == (if Keeps(ring[i], b) then [ring[i]] else []) + Pruned(ring[i + 1..], b)
  {
    assert ring[i..][1..] == ring[i + 1..];
  }

  /** `splice(i, 1)` on `p + [x] + t` at `i == |p|`. */
  lemma SpliceOut<T>(p: seq<T>, x: T, t: seq<T>)
    ensures (p + [x] + t)[..|p|] + (p + [x] + t)[|p| + 1..] == p + t
  {
    assert (p + [x] + t)[..|p|] == p;
    assert (p + [x] + t)[|p| + 1..] == t;
  }

  // ----- the centre bookkeeping -----

  /**
   * The clicked node becomes the group's centre, is flagged as centre and not
   * synonym, and leaves the ring.
   */
  method TakeCenter(reg: Registry, clicked: Node)
    requires reg.Valid()
    modifies reg`ring, reg.group`center, clicked`isCenter, clicked`isSynonym
    ensures reg.Valid()
    ensures reg.group.center == clicked && clicked.isCenter && !clicked.isSynonym
    ensures reg.ring == RemoveFirst(old(reg.ring), clicked) && clicked !in reg.ring
    ensures forall n :: n in reg.ring ==> n in old(reg.ring)
  {
    RemoveFirstNoDup(reg.ring, clicked);
    FiltersKeepOrder(reg.ring, [clicked]);
    reg.group.center := clicked;
    clicked.isCenter := true;
    clicked.isSynonym := false;
    reg.ring := RemoveFirst(reg.ring, clicked);
  }

  /**
   * The old centre, whose id is fetched again, becomes a synonym and joins the
   * end of the ring unless it is already there.
   */
  method AdoptOldCenter(reg: Registry, oldCenter: Node)
    requires reg.Valid() && HasId(oldCenter)
    modifies reg`ring, oldCenter`isCenter, oldCenter`isSynonym
    ensures reg.Valid()
    ensures !oldCenter.isCenter && oldCenter.isSynonym
    ensures reg.ring == if oldCenter in old(reg.ring) then old(reg.ring) else old(reg.ring) + [oldCenter]
    ensures oldCenter in reg.ring && forall n :: n in reg.ring ==> n in old(reg.ring) || n == oldCenter
  {
    oldCenter.isCenter := false;
    oldCenter.isSynonym := true;
    if oldCenter !in reg.ring {
      reg.ring := reg.ring + [oldCenter];
    }
  }

  // ----- shared nodes -----

  /**
   * The shared tweens run to their last frame: the node registered under each
   * shared id stands at that id's target, and no other registered node moves.
   */
  method SettleShared(reg: Registry, shared: seq<string>, targets: map<string, Vec3>)
    requires reg.Valid()
    requires forall k :: k in shared ==> k in targets
    modifies reg.byId.Values`pos
    ensures forall k :: k in shared && k in reg.byId ==> reg.byId[k].pos == targets[k]
    ensures forall k :: k in reg.byId && k !in shared ==> reg.byId[k].pos == old(reg.byId[k].pos)
  {
    var i := 0;
    while i < |shared|
      invariant 0 <= i <= |shared|
      invariant forall k :: k in reg.byId ==>
        reg.byId[k].pos == if k in shared[..i] then targets[k] else old(reg.byId[k].pos)
    {
      assert shared[..i + 1] == shared[..i] + [shared[i]];
      var obj := reg.NodeById(shared[i]);
      if obj.Some? {
        obj.value.pos := targets[shared[i]];
      }
      i := i + 1;
    }
    assert shared[..i] == shared;
  }

  // ----- former synonyms -----

  /** `nodeById` of each id that has a node, in the ids' order. */
  function NodesOf(byId: map<string, Node>, ids: seq<string>): (r: seq<Node>)
    ensures |r| <= |ids|
    ensures forall n :: n in r ==> exists k :: k in ids && k in byId && byId[k] == n
    ensures forall k :: k in ids && k in byId ==> byId[k] in r
  {
    if ids == [] then []
    else
      var rest := NodesOf(byId, ids[1..]);
      assert ids == [ids[0]] + ids[1..];
      if ids[0] in byId then [byId[ids[0]]] + rest else rest
  }

  /** The ids of the nodes looked up are exactly the ids that have a node. */
  lemma NodesOfIds(byId: map<string, Node>, ids: seq<string>)
    requires forall k :: k in byId ==> k != "" && byId[k].id == Some(k)
    ensures forall k :: k in IdsOf(NodesOf(byId, ids)) <==> k in ids && k in byId
  {
    var r := NodesOf(byId, ids);
    forall k | k in ids && k in byId ensures k in IdsOf(r) {
      assert byId[k] in r && HasId(byId[k]);
    }
  }

  // ----- fresh synonyms -----

  /** The entries that get a new sprite: a present id among `current`, in list order. */
  function Incoming(list: seq<Synonym>, current: seq<string>): (r: seq<Synonym>)
    ensures forall s :: s in r ==> s in list && Present(s.id) && s.id.value in current
  {
    if list == [] then []
    else
      var init := Incoming(list[..|list| - 1], current);
      var last := list[|list| - 1];
      assert list == list[..|list| - 1] + [last];
      if Present(last.id) && last.id.value in current then init + [last] else init
  }

  /** Every entry with a present id among `current` gets a sprite. */
  lemma {:induction false} IncomingCovers(list: seq<Synonym>, current: seq<string>)
    ensures forall s :: s in list && Present(s.id) && s.id.value in current ==> s in Incoming(list, current)
  {
    if list != [] {
      var init := list[..|list| - 1];
      IncomingCovers(init, current);
      assert list == init + [list[|list| - 1]];
    }
  }

  /**
   * Where the sprite for each id stands: at its target once its tween
   * arrived, otherwise at the spawn point on the way there from `origin`.
   */
  function Placements(targets: map<string, Vec3>, origin: Vec3, arrived: bool): map<string, Vec3> {
    map k | k in targets :: if arrived then targets[k] else SpawnPoint(origin, targets[k])
  }

  /** `n` is the synonym sprite made for `s`, standing at `pos`. */
  predicate Sprite(n: Node, s: Synonym, pos: Vec3)
    reads n
  {
    n.isSynonym && !n.isCenter && n.id == s.id && n.term == Some(s.term) && n.pos == pos
  }

  /**
   * The fresh synonyms: one new sprite per entry of `list` whose id is among
   * `current`, added to the group in list order but not registered.
   */
  method SpawnFresh(g: Group, list: seq<Synonym>, current: seq<string>, at: map<string, Vec3>)
      returns (ghost spawned: seq<Node>)
    requires NoDup(g.children)
    requires forall s :: s in list && Present(s.id) ==> s.id.value in at
    modifies g`children
    ensures NoDup(g.children)
    ensures g.children == old(g.children) + spawned
    ensures |spawned| == |Incoming(list, current)|
    ensures forall j :: 0 <= j < |spawned| ==>
      var s := Incoming(list, current)[j];
      fresh(spawned[j]) && Present(s.id) && s.id.value in at && Sprite(spawned[j], s, at[s.id.value])
  {
    spawned := [];
    ghost var picked: seq<Synonym> := [];
    var i := 0;
    while i < |list|
      invariant 0 <= i <= |list|
      invariant NoDup(g.children)
      invariant g.children == old(g.children) + spawned
      invariant picked == Incoming(list[..i], current) && |spawned| == |picked|
      invariant forall j :: 0 <= j < |spawned| ==>
        fresh(spawned[j]) && Present(picked[j].id) && picked[j].id.value in at && Sprite(spawned[j], picked[j], at[picked[j].id.value])
    {
      var s := list[i];
      assert list[..i + 1][..i] == list[..i];
      assert list[..i + 1][i] == s;
      if Present(s.id) && s.id.value in current {
        var sprite := AddSprite(g, s, at[s.id.value]);
        spawned := spawned + [sprite];
        picked := picked + [s];
      }
      i := i + 1;
    }
    assert list[..i] == list;
  }

  /** A new sprite for `s` at `pos`, flagged as synonym, appended to the group. */
  method AddSprite(g: Group, s: Synonym, pos: Vec3) returns (sprite: Node)
    requires NoDup(g.children)
    modifies g`children
    ensures NoDup(g.children)
    ensures fresh(sprite) && g.children == old(g.children) + [sprite]
    ensures Sprite(sprite, s, pos)
  {
    sprite := new Node(s.id, Some(s.term), pos, true, false);
    g.Add(sprite);
  }

  // ----- the expansion -----

  /** Where the run was cut short, as the expansion sees it: after how many fired delays. */
  function CutAt(run: Interruption): Option<nat> {
    if run.DuringAnimations? then Some(run.fired) else None
  }

  /**
   * How many of the `nf` former collapses completed, when the shared tasks
   * number `ns` and all tasks `n`: all of them undisturbed; otherwise only
   * those whose delay fired, and of those the first `collapsed`.
   */
  function FormersDone(run: Interruption, ns: nat, nf: nat, n: nat): (m: nat)
    ensures m <= nf
    ensures run.Undisturbed? ==> m == nf
    ensures run.DuringAnimations? ==> m <= run.collapsed && (m == 0 || ns + m <= Started(CutAt(run), n))
  {
    if run.DuringAnimations? then
      var k := Started(CutAt(run), n);
      var started := if k <= ns then 0 else if k - ns < nf then k - ns else nf;
      if run.collapsed < started then run.collapsed else started
    else nf
  }

  /**
   * The old centre's collapse completed: undisturbed, or before a
   * cancellation that came after every delay fired and every former
   * collapse completed, since it starts only then.
   */
  predicate CenterDone(run: Interruption, n: nat, nf: nat) {
    run.Undisturbed? || (run.DuringAnimations? && run.centerCollapsed && run.fired >= n && run.collapsed >= nf)
  }

  /**
   * The staggered tasks, one `delay` each: the shared ids with a node, the
   * former ids with a node when the old centre anchors their collapse, and
   * the fresh entries.
   */
  function Tasks(byId: map<string, Node>, anchored: bool, d: Split, list: seq<Synonym>): nat {
    |NodesOf(byId, d.shared)| + (if anchored then |NodesOf(byId, d.former)| else 0) + |Incoming(list, d.current)|
  }

  /** What the expansion registers on the transition's token, run by run. */
  function Expansion(timer: nat, anim: nat, adopted: bool, collapse: bool, n: nat, run: Interruption): seq<Callback> {
    Registered(timer, anim, adopted, n, Started(CutAt(run), n), collapse && Started(CutAt(run), n) == n)
  }

  /** There is an old centre other than the clicked node: `formerAnchor` is made at it. */
  predicate Anchored(oldCenter: Node?, clicked: Node) {
    oldCenter != null && oldCenter != clicked
  }

  /** `prevIsInNew`: the old centre has an id and it is among the fetched ids. */
  predicate Refetched(oldCenter: Node?, b: seq<string>) {
    oldCenter != null && HasId(oldCenter) && oldCenter.id.value in b
  }

  /** The id split of `transitionToNode` for the ring's synonym ids `a0` and the fetched ids `b`. */
  function SplitFor(a0: seq<string>, clicked: Node, oldCenter: Node?, b: seq<string>): Split
    requires HasId(clicked)
  {
    Diff(a0, clicked.id.value, if oldCenter == null then None else oldCenter.id, b)
  }

  /** A node whose id is not a former id is not among the collapsing nodes. */
  lemma NotCollapsed(byId: map<string, Node>, former: seq<string>, n: Node)
    requires forall k :: k in byId ==> byId[k].id == Some(k)
    requires HasId(n) && n.id.value !in former
    ensures n !in NodesOf(byId, former)
  {
  }

  // ----- what the call leaves behind -----

  /** The registry's three collections: `byId`, the ring and the group's children. */
  datatype Members = Members(byId: map<string, Node>, ring: seq<Node>, children: seq<Node>)

  function MembersOf(reg: Registry): Members
    reads reg, reg.group
  {
    Members(reg.byId, reg.ring, reg.group.children)
  }

  /**
   * The ring after the centre bookkeeping: the clicked node leaves it, and
   * an old centre whose id is fetched again joins its end unless it is there.
   */
  function Recentred(ring: seq<Node>, clicked: Node, oldCenter: Node?, b: seq<string>): seq<Node> {
    var r := RemoveFirst(ring, clicked);
    if Anchored(oldCenter, clicked) && Refetched(oldCenter, b) && oldCenter !in r then r + [oldCenter] else r
  }

  /**
   * The nodes whose collapse completed, in the order their `removeNode`
   * runs: the former nodes that finished collapsing, then an old centre
   * that was not fetched again, once its own collapse finished.
   */
  function Removed(byId: map<string, Node>, oldCenter: Node?, clicked: Node, d: Split, b: seq<string>,
                   list: seq<Synonym>, run: Interruption): seq<Node>
  {
    var formers := if Anchored(oldCenter, clicked) then NodesOf(byId, d.former) else [];
    var n := Tasks(byId, Anchored(oldCenter, clicked), d, list);
    formers[..FormersDone(run, |NodesOf(byId, d.shared)|, |formers|, n)] +
      if Anchored(oldCenter, clicked) && !Refetched(oldCenter, b) && CenterDone(run, n, |formers|)
      then [oldCenter] else []
  }

  /**
   * The end of the call: the `removed` nodes leave `byId`, the ring and the
   * group, and then, unless the call stalled, the ring is pruned to `b`.
   */
  function Left(m: Members, removed: seq<Node>, b: seq<string>, stalled: bool): Members {
    var ring := Subtract(m.ring, removed);
    Members(m.byId - IdsOf(removed), if stalled then ring else Pruned(ring, b), Subtract(m.children, removed))
  }

  /**
   * What an expansion leaves when the registry held `m` after the recenter:
   * the centre bookkeeping, the fresh sprites `spawned` appended to the
   * group, and the completed collapses and the prune.
   */
  function Expanded(m: Members, clicked: Node, oldCenter: Node?, list: seq<Synonym>, d: Split, b: seq<string>,
                    spawned: seq<Node>, run: Interruption, stalled: bool): Members
  {
    Left(Members(m.byId, Recentred(m.ring, clicked, oldCenter, b), m.children + spawned),
         Removed(m.byId, oldCenter, clicked, d, b, list, run), b, stalled)
  }

  /** `spawned` are the sprites made for `entries`, one each and in order. */
  ghost predicate SpritesFor(spawned: seq<Node>, entries: seq<Synonym>)
    reads spawned
  {
    |spawned| == |entries| &&
    forall j :: 0 <= j < |spawned| ==>
      spawned[j].isSynonym && !spawned[j].isCenter && spawned[j].id == entries[j].id &&
      spawned[j].term == Some(entries[j].term)
  }

  /**
   * Entry by entry, the end of the call keeps exactly the ids and nodes that
   * were not removed, and a finished call only the ring entries the prune keeps.
   */
  lemma LeftKeeps(m: Members, removed: seq<Node>, b: seq<string>, stalled: bool)
    ensures forall k :: k in Left(m, removed, b, stalled).byId <==> k in m.byId && k !in IdsOf(removed)
    ensures forall n :: n in Left(m, removed, b, stalled).ring ==> n in m.ring && n !in removed && (stalled || Keeps(n, b))
    ensures forall n :: n in m.ring && n !in removed && (stalled || Keeps(n, b)) ==> n in Left(m, removed, b, stalled).ring
    ensures forall n :: n in Left(m, removed, b, stalled).children <==> n in m.children && n !in removed
  {
    var ring := Subtract(m.ring, removed);
    PrunedKeeps(ring, b);
    forall n | n in Left(m, removed, b, stalled).ring
      ensures n in m.ring && n !in removed && (stalled || Keeps(n, b))
    {
      assert Left(m, removed, b, stalled).ring == if stalled then ring else Pruned(ring, b);
      if !stalled {
        assert n in Pruned(ring, b);
        assert Keeps(n, b);
      }
      assert n in ring;
    }
  }

  /** A node missing from the ring before the removals is missing after them. */
  lemma LeftOmits(m: Members, removed: seq<Node>, b: seq<string>, stalled: bool, x: Node)
    requires x !in m.ring
    ensures x !in Left(m, removed, b, stalled).ring
  {
    LeftKeeps(m, removed, b, stalled);
  }

  /** An expansion is the recentre and the spawn, followed by the removals. */
  lemma ExpandedSteps(m: Members, m1: Members, clicked: Node, oldCenter: Node?, list: seq<Synonym>, d: Split,
                      b: seq<string>, spawned: seq<Node>, run: Interruption, stalled: bool)
    requires m1 == Members(m.byId, Recentred(m.ring, clicked, oldCenter, b), m.children + spawned)
    ensures Expanded(m, clicked, oldCenter, list, d, b, spawned, run, stalled) ==
      Left(m1, Removed(m.byId, oldCenter, clicked, d, b, list, run), b, stalled)
  {
  }

  /**
   * An expansion only takes away: `byId` keeps a subset of its entries, the
   * ring gains only the re-adopted old centre and the group only the fresh
   * sprites, and a finished call leaves only fetched ids in the ring.
   */
  lemma ExpandedWithin(m: Members, clicked: Node, oldCenter: Node?, list: seq<Synonym>, d: Split, b: seq<string>,
                       spawned: seq<Node>, run: Interruption, stalled: bool)
    requires Consistent(m.byId, m.ring, m.children)
    ensures forall k :: k in Expanded(m, clicked, oldCenter, list, d, b, spawned, run, stalled).byId ==>
      k in m.byId && Expanded(m, clicked, oldCenter, list, d, b, spawned, run, stalled).byId[k] == m.byId[k]
    ensures forall n :: n in Expanded(m, clicked, oldCenter, list, d, b, spawned, run, stalled).ring ==>
      n in m.ring || n == oldCenter
    ensures forall n :: n in Expanded(m, clicked, oldCenter, list, d, b, spawned, run, stalled).children ==>
      n in m.children || n in spawned
    ensures !stalled ==> forall n :: n in Expanded(m, clicked, oldCenter, list, d, b, spawned, run, stalled).ring ==>
      HasId(n) && n.id.value in b
  {
    var r := Recentred(m.ring, clicked, oldCenter, b);
    var removed := Removed(m.byId, oldCenter, clicked, d, b, list, run);
    var e := Expanded(m, clicked, oldCenter, list, d, b, spawned, run, stalled);
    assert e == Left(Members(m.byId, r, m.children + spawned), removed, b, stalled);
    LeftKeeps(Members(m.byId, r, m.children + spawned), removed, b, stalled);
    RecentredHolds(m.ring, clicked, oldCenter, b);
    forall n | n in e.ring
      ensures n in r && (n in m.ring || n == oldCenter)
      ensures !stalled ==> HasId(n) && n.id.value in b
    {
      if n != oldCenter {
        assert n in m.ring;
      }
    }
  }

  /** The ring after the centre bookkeeping, entry by entry. */
  lemma RecentredHolds(ring: seq<Node>, clicked: Node, oldCenter: Node?, b: seq<string>)
    requires NoDup(ring)
    ensures forall n :: n in Recentred(ring, clicked, oldCenter, b) <==>
      (n in ring && n != clicked) || (Anchored(oldCenter, clicked) && Refetched(oldCenter, b) && n == oldCenter)
  {
    RemoveFirstNoDup(ring, clicked);
  }

  /** No collapsed node carries a fetched id. */
  lemma RemovedUnfetched(byId: map<string, Node>, oldCenter: Node?, clicked: Node, d: Split, b: seq<string>,
                         list: seq<Synonym>, run: Interruption)
    requires forall k :: k in byId ==> byId[k].id == Some(k)
    requires forall k :: k in d.former ==> k !in b
    ensures forall n :: n in Removed(byId, oldCenter, clicked, d, b, list, run) && HasId(n) ==> n.id.value !in b
  {
    var formers := if Anchored(oldCenter, clicked) then NodesOf(byId, d.former) else [];
    var k := FormersDone(run, |NodesOf(byId, d.shared)|, |formers|, Tasks(byId, Anchored(oldCenter, clicked), d, list));
    var centre := if Anchored(oldCenter, clicked) && !Refetched(oldCenter, b) &&
                     CenterDone(run, Tasks(byId, Anchored(oldCenter, clicked), d, list), |formers|)
                  then [oldCenter] else [];
    assert Removed(byId, oldCenter, clicked, d, b, list, run) == formers[..k] + centre;
    forall n | n in formers[..k] + centre && HasId(n)
      ensures n.id.value !in b
    {
      if n !in centre {
        assert n in formers;
        var j :| j in d.former && j in byId && byId[j] == n;
      }
    }
  }

  /**
   * After a finished call the ring holds exactly the old ring's entries,
   * other than the clicked node, whose id was fetched, and the re-adopted
   * old centre: the collapsed nodes were never fetched, so the prune would
   * have dropped them anyway.
   */
  lemma FinishedRing(m: Members, clicked: Node, oldCenter: Node?, list: seq<Synonym>, d: Split, b: seq<string>,
                     spawned: seq<Node>, run: Interruption)
    requires Consistent(m.byId, m.ring, m.children)
    requires forall k :: k in d.former ==> k !in b
    ensures forall n :: n in Expanded(m, clicked, oldCenter, list, d, b, spawned, run, false).ring <==>
      (n in m.ring && n != clicked && n.id.value in b) || (Anchored(oldCenter, clicked) && Refetched(oldCenter, b) && n == oldCenter)
  {
    var r := Recentred(m.ring, clicked, oldCenter, b);
    LeftKeeps(Members(m.byId, r, m.children + spawned), Removed(m.byId, oldCenter, clicked, d, b, list, run), b, false);
    RecentredHolds(m.ring, clicked, oldCenter, b);
    RemovedUnfetched(m.byId, oldCenter, clicked, d, b, list, run);
  }

  /**
   * An undisturbed call forgets exactly the former ids (when the old centre
   * anchored their collapse) and the id of an old centre that was not
   * fetched again.
   */
  lemma UndisturbedById(m: Members, clicked: Node, oldCenter: Node?, list: seq<Synonym>, d: Split, b: seq<string>,
                        spawned: seq<Node>, stalled: bool)
    requires Consistent(m.byId, m.ring, m.children)
    ensures forall k :: k in Expanded(m, clicked, oldCenter, list, d, b, spawned, Undisturbed, stalled).byId <==>
      k in m.byId && !(Anchored(oldCenter, clicked) && k in d.former) &&
      !(Anchored(oldCenter, clicked) && !Refetched(oldCenter, b) && oldCenter.id == Some(k))
  {
    var removed := Removed(m.byId, oldCenter, clicked, d, b, list, Undisturbed);
    var formers := if Anchored(oldCenter, clicked) then NodesOf(m.byId, d.former) else [];
    assert formers[..|formers|] == formers;
    NodesOfIds(m.byId, d.former);
    assert IdsOf(removed) == IdsOf(formers) +
      if Anchored(oldCenter, clicked) && !Refetched(oldCenter, b) then IdsOf([oldCenter]) else {};
  }

  /**
   * The centre bookkeeping once the recenter completed: the clicked node
   * takes the centre and leaves the ring, and an old centre whose id is
   * fetched again rejoins the ring as a synonym.
   */
  method Recentre(reg: Registry, clicked: Node, oldCenter: Node?, b: seq<string>)
    requires reg.Valid() && oldCenter == reg.group.center
    modifies reg`ring, reg.group`center, clicked`isCenter, clicked`isSynonym
    modifies NodeSet(oldCenter)`isCenter, NodeSet(oldCenter)`isSynonym
    ensures reg.Valid()
    ensures reg.group.center == clicked && clicked.isCenter && !clicked.isSynonym && clicked !in reg.ring
    ensures reg.ring == Recentred(old(reg.ring), clicked, oldCenter, b)
    ensures Anchored(oldCenter, clicked) && Refetched(oldCenter, b) ==>
      oldCenter.isSynonym && !oldCenter.isCenter && oldCenter in reg.ring
  {
    TakeCenter(reg, clicked);
    if Anchored(oldCenter, clicked) && Refetched(oldCenter, b) {
      AdoptOldCenter(reg, oldCenter);
    }
  }

  /**
   * The synchronous part of the expansion and, when `finished`, the end of
   * the tweens that move nodes: the clicked node takes the centre, a
   * re-fetched old centre rejoins the ring, the nodes to collapse are looked
   * up, the fresh sprites are added, and the shared nodes and the re-adopted
   * old centre reach their targets.
   */
  method Prepare(reg: Registry, clicked: Node, oldCenter: Node?, list: seq<Synonym>, d: Split, b: seq<string>,
                 targets: map<string, Vec3>, finished: bool) returns (formers: seq<Node>, ghost spawned: seq<Node>)
    requires reg.Valid()
    requires oldCenter == reg.group.center
    requires forall s :: s in list && Present(s.id) ==> s.id.value in targets
    requires forall k :: k in d.shared ==> k in targets
    requires forall k :: k in b ==> k in targets
    requires forall k :: k in d.former ==> k !in b
    modifies reg`ring, reg.group`children, reg.group`center, reg.byId.Values`pos, clicked, NodeSet(oldCenter)
    ensures reg.Valid()
    ensures reg.group.center == clicked && clicked.isCenter && !clicked.isSynonym && clicked !in reg.ring
    ensures reg.ring == Recentred(old(reg.ring), clicked, oldCenter, b)
    ensures !(HasId(clicked) && clicked.id.value in d.shared) ==> clicked.pos == old(clicked.pos)
    ensures reg.group.children == old(reg.group.children) + spawned
    ensures forall n :: n in spawned ==> fresh(n)
    ensures SpritesFor(spawned, Incoming(list, d.current))
    ensures formers == if Anchored(oldCenter, clicked) then NodesOf(reg.byId, d.former) else []
    ensures Anchored(oldCenter, clicked) && Refetched(oldCenter, b) ==>
      oldCenter.isSynonym && !oldCenter.isCenter && oldCenter in reg.ring && oldCenter !in formers &&
      (finished ==> oldCenter.pos == targets[oldCenter.id.value])
    ensures finished ==> forall k :: k in d.shared && k in reg.byId ==> reg.byId[k].pos == targets[k]
  {
    Recentre(reg, clicked, oldCenter, b);
    if Anchored(oldCenter, clicked) && Refetched(oldCenter, b) {
      NotCollapsed(reg.byId, d.former, oldCenter);
    }
    formers := if Anchored(oldCenter, clicked) then NodesOf(reg.byId, d.former) else [];
    spawned := SpawnFresh(reg.group, list, d.current, Placements(targets, clicked.pos, finished));
    assert SpritesFor(spawned, Incoming(list, d.current));
    if finished {
      if !(HasId(clicked) && clicked.id.value in reg.byId && reg.byId[clicked.id.value] == clicked) {
        assert clicked !in reg.byId.Values;
      }
      SettleMoves(reg, d.shared, targets, if Anchored(oldCenter, clicked) && Refetched(oldCenter, b) then oldCenter else null);
    }
  }

  /**
   * The moving tweens reach their last frame: the shared nodes and, when the
   * old centre was re-adopted, the old centre stand at their targets.
   */
  method SettleMoves(reg: Registry, shared: seq<string>, targets: map<string, Vec3>, adopted: Node?)
    requires reg.Valid()
    requires forall k :: k in shared ==> k in targets
    requires adopted != null ==> HasId(adopted) && adopted.id.value in targets
    modifies reg.byId.Values`pos, NodeSet(adopted)`pos
    ensures forall k :: k in shared && k in reg.byId ==> reg.byId[k].pos == targets[k]
    ensures adopted != null ==> adopted.pos == targets[adopted.id.value]
    ensures forall k :: k in reg.byId && k !in shared && reg.byId[k] != adopted ==> reg.byId[k].pos == old(reg.byId[k].pos)
  {
    SettleShared(reg, shared, targets);
    if adopted != null {
      adopted.pos := targets[adopted.id.value];
    }
  }

  /**
   * Everything after a completed recenter, under the transition's `token`.
   * The clicked node takes the centre; an old centre whose id is fetched
   * again rejoins the ring and is tweened to its target, otherwise it
   * anchors the former collapses and collapses itself once every task is
   * done.  One `delay` per staggered task registers on the token, and each
   * delay that fires starts a tween that registers too (`Expansion`).
   * Undisturbed, every timer fires and every tween settles, so the manager
   * ends with the timers and tracked set it began with, and every shared
   * node and the re-adopted old centre stand at their targets.  A newer
   * transition's `begin` during the animations cancels the token and runs
   * its callbacks; the call stalls exactly when a delay of its own had not
   * fired yet, and otherwise the ring is pruned to the fetched ids `b`.
   */
  method Expand(reg: Registry, mgr: TransitionManager, token: Token, clicked: Node, oldCenter: Node?,
                list: seq<Synonym>, d: Split, b: seq<string>, targets: map<string, Vec3>, run: Interruption)
      returns (outcome: Outcome, ghost spawned: seq<Node>)
    requires reg.Valid() && mgr.Valid() && mgr.currentToken == token
    requires oldCenter == reg.group.center
    requires forall s :: s in list && Present(s.id) ==> s.id.value in targets
    requires forall k :: k in d.shared ==> k in targets
    requires forall k :: k in b ==> k in targets
    requires forall k :: k in d.former ==> k !in b
    requires run.Undisturbed? || run.DuringAnimations?
    modifies reg`byId, reg`ring, reg.group`children, reg.group`center, reg.byId.Values`pos, clicked, NodeSet(oldCenter)
    modifies mgr`pendingTimers, mgr`nextTimer, mgr`nextAnimation, mgr`active, mgr`fired, mgr`currentToken, mgr`issued
    modifies token`cancelCallbacks, token`cancelled
    ensures reg.Valid() && mgr.Valid()
    ensures outcome == Stalled || outcome == Finished
    ensures mgr.nextTimer == old(mgr.nextTimer) + Tasks(old(reg.byId), Anchored(oldCenter, clicked), d, list)
    ensures token.cancelCallbacks == old(token.cancelCallbacks) +
      Expansion(old(mgr.nextTimer), old(mgr.nextAnimation), Anchored(oldCenter, clicked) && Refetched(oldCenter, b),
                Anchored(oldCenter, clicked) && !Refetched(oldCenter, b),
                Tasks(old(reg.byId), Anchored(oldCenter, clicked), d, list), run)
    ensures outcome == Stalled <==> run.DuringAnimations? && run.fired < mgr.nextTimer - old(mgr.nextTimer)
    ensures run.Undisturbed? ==>
      (mgr.currentToken == token && token.cancelled == old(token.cancelled) && mgr.issued == old(mgr.issued) &&
       mgr.pendingTimers == old(mgr.pendingTimers) && mgr.active == old(mgr.active))
    ensures run.DuringAnimations? ==>
      (token.cancelled && mgr.currentToken != token && mgr.pendingTimers == {} && mgr.active == {} &&
       |mgr.issued| == |old(mgr.issued)| + 1 && old(mgr.issued) <= mgr.issued)
    ensures reg.group.center == clicked && clicked.isCenter && !clicked.isSynonym && clicked !in reg.ring
    ensures !(HasId(clicked) && clicked.id.value in d.shared) ==> clicked.pos == old(clicked.pos)
    ensures Members(reg.byId, reg.ring, reg.group.children) == Expanded(Members(old(reg.byId), old(reg.ring), old(reg.group.children)), clicked, oldCenter, list, d, b, spawned, run, outcome == Stalled)
    ensures forall n :: n in spawned ==> fresh(n)
    ensures SpritesFor(spawned, Incoming(list, d.current))
    ensures Anchored(oldCenter, clicked) && Refetched(oldCenter, b) ==> oldCenter.isSynonym && !oldCenter.isCenter
  {
    ghost var m0 := Members(reg.byId, reg.ring, reg.group.children);
    ghost var removed := Removed(reg.byId, oldCenter, clicked, d, b, list, run);
    var formers;
    formers, spawned := Prepare(reg, clicked, oldCenter, list, d, b, targets, run.Undisturbed?);
    ghost var m1 := MembersOf(reg);
    assert m1 == Members(m0.byId, Recentred(m0.ring, clicked, oldCenter, b), m0.children + spawned);
    ghost var p := clicked.pos;
    outcome := Animate(reg, mgr, token, clicked, oldCenter, formers, list, d, b, run);
    assert MembersOf(reg) == Left(m1, removed, b, outcome == Stalled) && clicked.pos == p;
    LeftOmits(m1, removed, b, outcome == Stalled, clicked);
    ExpandedSteps(m0, m1, clicked, oldCenter, list, d, b, spawned, run, outcome == Stalled);
  }

  /**
   * The animations of the expansion and what they leave behind: the
   * manager's side runs (`StaggerTasks`), then the completed collapses
   * remove their nodes and the call concludes.
   */
  method Animate(reg: Registry, mgr: TransitionManager, token: Token, clicked: Node, oldCenter: Node?,
                 formers: seq<Node>, list: seq<Synonym>, d: Split, b: seq<string>, run: Interruption)
      returns (outcome: Outcome)
    requires reg.Valid() && mgr.Valid() && mgr.currentToken == token
    requires run.Undisturbed? || run.DuringAnimations?
    requires formers == if Anchored(oldCenter, clicked) then NodesOf(reg.byId, d.former) else []
    requires Anchored(oldCenter, clicked) && Refetched(oldCenter, b) ==> oldCenter in reg.ring && oldCenter !in formers
    modifies reg`byId, reg`ring, reg.group`children
    modifies mgr`pendingTimers, mgr`nextTimer, mgr`nextAnimation, mgr`active, mgr`fired, mgr`currentToken, mgr`issued
    modifies token`cancelCallbacks, token`cancelled
    ensures reg.Valid() && mgr.Valid()
    ensures outcome == Stalled || outcome == Finished
    ensures mgr.nextTimer == old(mgr.nextTimer) + Tasks(old(reg.byId), Anchored(oldCenter, clicked), d, list)
    ensures token.cancelCallbacks == old(token.cancelCallbacks) +
      Expansion(old(mgr.nextTimer), old(mgr.nextAnimation), Anchored(oldCenter, clicked) && Refetched(oldCenter, b),
                Anchored(oldCenter, clicked) && !Refetched(oldCenter, b),
                Tasks(old(reg.byId), Anchored(oldCenter, clicked), d, list), run)
    ensures outcome == Stalled <==> run.DuringAnimations? && run.fired < mgr.nextTimer - old(mgr.nextTimer)
    ensures run.Undisturbed? ==>
      (mgr.currentToken == token && token.cancelled == old(token.cancelled) && mgr.issued == old(mgr.issued) &&
       mgr.pendingTimers == old(mgr.pendingTimers) && mgr.active == old(mgr.active))
    ensures run.DuringAnimations? ==>
      (token.cancelled && mgr.currentToken != token && mgr.pendingTimers == {} && mgr.active == {} &&
       |mgr.issued| == |old(mgr.issued)| + 1 && old(mgr.issued) <= mgr.issued)
    ensures MembersOf(reg) ==
      Left(old(MembersOf(reg)), Removed(old(reg.byId), oldCenter, clicked, d, b, list, run), b, outcome == Stalled)
  {
    var ns := |NodesOf(reg.byId, d.shared)|;
    var n := ns + |formers| + |Incoming(list, d.current)|;
    assert n == Tasks(reg.byId, Anchored(oldCenter, clicked), d, list);
    var collapse := Anchored(oldCenter, clicked) && !Refetched(oldCenter, b);
    var centerDone := CenterDone(run, n, |formers|);
    var stalled := StaggerTasks(mgr, token, Anchored(oldCenter, clicked) && Refetched(oldCenter, b), n, collapse,
                                CutAt(run), centerDone);
    var done := formers[..FormersDone(run, ns, |formers|, n)];
    assert done + (if collapse && centerDone then [oldCenter] else []) == Removed(reg.byId, oldCenter, clicked, d, b, list, run);
    outcome := Collapse(reg, clicked, oldCenter, formers, done, b, collapse && centerDone, stalled);
  }

  /**
   * The collapses reach their end and the call concludes.  Each former node
   * in `done` (the collapses that completed) is removed from the registry,
   * the ring and the group, and so is an old centre that was not fetched
   * again when its own collapse completed (`centerGone`); a re-fetched old
   * centre stays in the ring.  A kept ring node is one that was not removed
   * and, unless the call stalled, whose id was fetched.
   */
  method Collapse(reg: Registry, clicked: Node, oldCenter: Node?, formers: seq<Node>, done: seq<Node>,
                  b: seq<string>, centerGone: bool, stalled: bool) returns (outcome: Outcome)
    requires reg.Valid()
    requires done <= formers
    requires Anchored(oldCenter, clicked) && Refetched(oldCenter, b) ==> oldCenter in reg.ring && oldCenter !in formers
    requires centerGone ==> Anchored(oldCenter, clicked) && !Refetched(oldCenter, b)
    modifies reg`byId, reg`ring, reg.group`children
    ensures reg.Valid()
    ensures outcome == (if stalled then Stalled else Finished)
    ensures MembersOf(reg) == Left(old(MembersOf(reg)), done + if centerGone then [oldCenter] else [], b, stalled)
    ensures forall n :: n in done && HasId(n) ==> n.id.value !in reg.byId && n !in reg.ring
    ensures Anchored(oldCenter, clicked) && Refetched(oldCenter, b) && outcome == Finished ==> oldCenter in reg.ring
    ensures centerGone ==> oldCenter !in reg.ring && oldCenter !in reg.group.children
  {
    // each completed former collapse's `removeNode`, then the old centre's
    var gone := if centerGone then [oldCenter] else [];
    LeftKeeps(MembersOf(reg), done + gone, b, stalled);
    if Anchored(oldCenter, clicked) && Refetched(oldCenter, b) {
      assert forall n :: n in done ==> n in formers;
      assert oldCenter !in done + gone;
    }
    forall n | n in done && HasId(n) ensures n.id.value in IdsOf(done + gone) {
      assert n in done + gone;
    }
    outcome := Finish(reg, done + gone, b, stalled);
  }

  /**
   * The collapsed nodes leave the registry, the ring and the group, then the
   * call concludes: a kept ring node is one that was not removed and, unless
   * the call stalled, whose id was fetched.
   */
  method Finish(reg: Registry, removed: seq<Node>, b: seq<string>, stalled: bool) returns (outcome: Outcome)
    requires reg.Valid()
    modifies reg`byId, reg`ring, reg.group`children
    ensures reg.Valid()
    ensures outcome == (if stalled then Stalled else Finished)
    ensures MembersOf(reg) == Left(old(MembersOf(reg)), removed, b, stalled)
  {
    reg.RemoveAll(removed);
    outcome := Conclude(reg, b, stalled);
  }

  /**
   * The end of the call: a call left waiting on a cleared `delay` never gets
   * further; otherwise the ring is pruned to the fetched ids, even after a
   * late cancellation.
   */
  method Conclude(reg: Registry, b: seq<string>, stalled: bool) returns (outcome: Outcome)
    requires reg.Valid()
    modifies reg`ring
    ensures reg.Valid()
    ensures outcome == (if stalled then Stalled else Finished)
    ensures outcome == Stalled ==> reg.ring == old(reg.ring)
    ensures outcome == Finished ==> reg.ring == Pruned(old(reg.ring), b)
    ensures forall n :: n in reg.ring ==> n in old(reg.ring)
    ensures outcome == Finished ==> forall n :: n in reg.ring ==> HasId(n) && n.id.value in b
    ensures outcome == Finished ==> forall n :: n in old(reg.ring) && HasId(n) && n.id.value in b ==> n in reg.ring
  {
    if stalled {
      return Stalled;
    }
    PruneRing(reg, b);
    PrunedKeeps(old(reg.ring), b);
    return Finished;
  }

  // ----- the click transition -----

  /** Every synonym with a present id, hence every fetched id, has a target. */
  lemma TargetsCover(list: seq<Synonym>, docKey: string, targets: map<string, Vec3>)
    requires forall k :: k in targets <==> k == docKey || LastPos(list, k).Some?
    ensures forall s :: s in list && Present(s.id) ==> s.id.value in targets
    ensures forall k :: k in PresentIds(list) ==> k in targets
  {
    forall s | s in list && Present(s.id) ensures s.id.value in targets {
      assert Key(s.id) == s.id.value;
    }
  }

  /**
   * `transitionToNode(clicked)`.  A node without an id changes nothing.
   * Otherwise a new token is begun; a fetch that throws, is cancelled or
   * yields no document or no term ends the call, as does a
   * `linked_synonyms` that is not an array, leaving the ring, `byId` and the
   * group as they were and the token without callbacks.  The recenter's
   * animation registers first on the token; the translation the recenter
   * reached is baked into the children, whether it completed or was
   * cancelled midway, and the group's offset ends at zero.  After a
   * completed recenter the clicked node stands at the group's old offset,
   * unless the expansion moves it as a shared node, and the expansion runs:
   * each of its delays registers the clear callback of one timer, the call
   * stalls exactly when a newer transition cut in before all of them fired,
   * the clicked node is the centre and out of the ring, and `byId`, the
   * ring and the group's children are exactly `Expanded` of what they were:
   * the recentred ring, the children followed by the fresh sprites, less
   * the nodes whose collapse completed, with the ring pruned to the fetched
   * ids unless the call stalled.  Undisturbed, it finishes with its token
   * current and live, no timer pending and nothing tracked.
   */
  method TransitionToNode(reg: Registry, mgr: TransitionManager, clicked: Node, fetched: Fetch, run: Interruption)
      returns (outcome: Outcome, ghost spawned: seq<Node>)
    requires reg.Valid() && mgr.Valid()
    modifies reg`byId, reg`ring, reg.group`children, reg.group`center, reg.group`offset, reg.group.children
    modifies reg.byId.Values`pos, clicked, NodeSet(reg.group.center)
    modifies mgr`pendingTimers, mgr`nextTimer, mgr`nextAnimation, mgr`active, mgr`fired, mgr`currentToken, mgr`issued
    modifies Held(mgr.currentToken)`cancelled
    ensures reg.Valid() && mgr.Valid()
    ensures outcome == NoId <==> !HasId(clicked)
    ensures outcome == NoId ==> unchanged(mgr) && unchanged(reg, reg.group)
    ensures outcome != NoId ==> |mgr.issued| > |old(mgr.issued)| && fresh(mgr.issued[|old(mgr.issued)|])
    ensures outcome in {FetchFailed, CancelledInFetch, NoTerm, BadSynonyms} ==>
      mgr.issued[|old(mgr.issued)|].cancelCallbacks == []
    ensures outcome in {CancelledInRecenter, Stalled, Finished} ==>
      var callbacks := mgr.issued[|old(mgr.issued)|].cancelCallbacks;
      |callbacks| > 0 && callbacks[0] == StopFrames(old(mgr.nextAnimation))
    ensures outcome != NoId ==>
      forall t: nat :: ClearTimer(t) in mgr.issued[|old(mgr.issued)|].cancelCallbacks <==>
        old(mgr.nextTimer) <= t < mgr.nextTimer
    ensures outcome in {Stalled, Finished} ==>
      (outcome == Stalled <==> run.DuringAnimations? && run.fired < mgr.nextTimer - old(mgr.nextTimer))
    ensures outcome in {FetchFailed, CancelledInFetch, NoTerm, BadSynonyms, CancelledInRecenter} ==>
      reg.ring == old(reg.ring) && reg.byId == old(reg.byId) &&
      reg.group.children == old(reg.group.children) && reg.group.center == old(reg.group.center)
    ensures outcome in {CancelledInFetch, CancelledInRecenter, Stalled} ==>
      |mgr.issued| > |old(mgr.issued)| && mgr.issued[|old(mgr.issued)|].cancelled
    ensures outcome in {CancelledInRecenter, Stalled, Finished} ==> reg.group.offset == Zero
    ensures outcome == CancelledInRecenter ==>
      run.DuringRecenter? &&
      forall n :: n in reg.group.children ==>
        n.pos == Add(old(n.pos), Lerp(old(reg.group.offset), Sub(old(reg.group.offset), old(clicked.pos)), Reached(StoppedAt(run.t))))
    ensures outcome in {Stalled, Finished} ==>
      HasId(clicked) && fetched.Returned? && fetched.doc.Some? &&
      var list := SynonymList(fetched.doc.value.linked);
      var d := SplitFor(old(SynonymIds(reg.ring)), clicked, old(reg.group.center), PresentIds(list));
      MembersOf(reg) ==
        Expanded(old(MembersOf(reg)), clicked, old(reg.group.center), list, d, PresentIds(list), spawned, run,
                 outcome == Stalled) &&
      SpritesFor(spawned, Incoming(list, d.current)) &&
      (clicked in old(reg.group.children) && clicked.id.value !in d.shared ==> clicked.pos == old(reg.group.offset))
    ensures forall n :: n in spawned ==> fresh(n)
    ensures outcome == Stalled || outcome == Finished ==>
      reg.group.center == clicked && clicked.isCenter && !clicked.isSynonym && clicked !in reg.ring
    ensures outcome == Finished ==> forall n :: n in reg.ring ==> HasId(n) && n.id.value in FetchedIds(fetched)
    ensures forall n :: n in reg.ring ==> n in old(reg.ring) || n == old(reg.group.center)
    ensures forall k :: k in reg.byId ==> k in old(reg.byId) && reg.byId[k] == old(reg.byId[k])
    ensures forall n :: n in reg.group.children ==> n in old(reg.group.children) || fresh(n)
    ensures (run.Undisturbed? && HasId(clicked) && fetched.Returned? && fetched.doc.Some? &&
             Present(fetched.doc.value.term) && !fetched.doc.value.linked.NotAList?) ==>
      (outcome == Finished && mgr.currentToken == mgr.issued[|old(mgr.issued)|] && !mgr.currentToken.cancelled &&
       mgr.pendingTimers == {} && mgr.active == {})
  {
    if !HasId(clicked) {
      return NoId, [];
    }
    ghost var a0, m0, c0 := SynonymIds(reg.ring), MembersOf(reg), reg.group.center;
    ghost var k, frames, timers := |mgr.issued|, mgr.nextAnimation, mgr.nextTimer;
    var token := mgr.Begin();
    assert SynonymIds(reg.ring) == a0 && MembersOf(reg) == m0 && reg.group.center == c0;
    assert mgr.nextAnimation == frames && mgr.nextTimer == timers && mgr.issued[k] == token;
    outcome, spawned := Receive(reg, mgr, token, clicked, fetched, run);
    assert mgr.issued[k] == token;
  }

  /**
   * The part of `transitionToNode` after `begin()`, under the call's fresh
   * `token`: a fetch that threw or was overtaken by a newer call ends it,
   * a document without a term ends it, and otherwise `Respond` goes on.
   */
  method Receive(reg: Registry, mgr: TransitionManager, token: Token, clicked: Node, fetched: Fetch, run: Interruption)
      returns (outcome: Outcome, ghost spawned: seq<Node>)
    requires reg.Valid() && mgr.Valid() && mgr.currentToken == token && HasId(clicked) && token.cancelCallbacks == []
    modifies reg`byId, reg`ring, reg.group`children, reg.group`center, reg.group`offset, reg.group.children
    modifies reg.byId.Values`pos, clicked, NodeSet(reg.group.center)
    modifies mgr`pendingTimers, mgr`nextTimer, mgr`nextAnimation, mgr`active, mgr`fired, mgr`currentToken, mgr`issued
    modifies token`cancelCallbacks, token`cancelled
    ensures reg.Valid() && mgr.Valid() && old(mgr.issued) <= mgr.issued
    ensures outcome != NoId
    ensures outcome in {FetchFailed, CancelledInFetch, NoTerm, BadSynonyms} ==> token.cancelCallbacks == []
    ensures outcome in {CancelledInRecenter, Stalled, Finished} ==>
      |token.cancelCallbacks| > 0 && token.cancelCallbacks[0] == StopFrames(old(mgr.nextAnimation))
    ensures forall t: nat :: ClearTimer(t) in token.cancelCallbacks <==> old(mgr.nextTimer) <= t < mgr.nextTimer
    ensures outcome in {Stalled, Finished} ==>
      (outcome == Stalled <==> run.DuringAnimations? && run.fired < mgr.nextTimer - old(mgr.nextTimer))
    ensures outcome in {FetchFailed, CancelledInFetch, NoTerm, BadSynonyms, CancelledInRecenter} ==>
      reg.ring == old(reg.ring) && reg.byId == old(reg.byId) &&
      reg.group.children == old(reg.group.children) && reg.group.center == old(reg.group.center)
    ensures outcome in {CancelledInFetch, CancelledInRecenter, Stalled} ==> token.cancelled
    ensures outcome in {CancelledInRecenter, Stalled, Finished} ==> reg.group.offset == Zero
    ensures outcome == CancelledInRecenter ==>
      run.DuringRecenter? &&
      forall n :: n in reg.group.children ==>
        n.pos == Add(old(n.pos), Lerp(old(reg.group.offset), Sub(old(reg.group.offset), old(clicked.pos)), Reached(StoppedAt(run.t))))
    ensures outcome in {Stalled, Finished} ==>
      fetched.Returned? && fetched.doc.Some? &&
      var list := SynonymList(fetched.doc.value.linked);
      var d := SplitFor(old(SynonymIds(reg.ring)), clicked, old(reg.group.center), PresentIds(list));
      MembersOf(reg) ==
        Expanded(old(MembersOf(reg)), clicked, old(reg.group.center), list, d, PresentIds(list), spawned, run,
                 outcome == Stalled) &&
      SpritesFor(spawned, Incoming(list, d.current)) &&
      (clicked in old(reg.group.children) && clicked.id.value !in d.shared ==> clicked.pos == old(reg.group.offset))
    ensures forall n :: n in spawned ==> fresh(n)
    ensures outcome == Stalled || outcome == Finished ==>
      reg.group.center == clicked && clicked.isCenter && !clicked.isSynonym && clicked !in reg.ring
    ensures outcome == Finished ==> forall n :: n in reg.ring ==> HasId(n) && n.id.value in FetchedIds(fetched)
    ensures forall n :: n in reg.ring ==> n in old(reg.ring) || n == old(reg.group.center)
    ensures forall k :: k in reg.byId ==> k in old(reg.byId) && reg.byId[k] == old(reg.byId[k])
    ensures forall n :: n in reg.group.children ==> n in old(reg.group.children) || fresh(n)
    ensures (run.Undisturbed? && fetched.Returned? && fetched.doc.Some? &&
             Present(fetched.doc.value.term) && !fetched.doc.value.linked.NotAList?) ==>
      (outcome == Finished && mgr.currentToken == token && token.cancelled == old(token.cancelled) &&
       mgr.pendingTimers == old(mgr.pendingTimers) && mgr.active == old(mgr.active))
  {
    if fetched.Threw? {
      if run.DuringFetch? {
        var _ := mgr.Begin();
      }
      return FetchFailed, [];
    }
    if run.DuringFetch? {
      var _ := mgr.Begin();
      return CancelledInFetch, [];
    }
    var doc := fetched.doc;
    if doc.None? || !Present(doc.value.term) {
      return NoTerm, [];
    }
    outcome, spawned := Respond(reg, mgr, token, clicked, doc.value, run);
  }

  /**
   * The part of `transitionToNode` after a document with a term arrived,
   * under the call's current `token`: the id split is computed on the
   * current ring, a `linked_synonyms` that is not an array throws before
   * anything changes, then the recenter runs and, if it completed, the
   * expansion.
   */
  method Respond(reg: Registry, mgr: TransitionManager, token: Token, clicked: Node, doc: TermDoc, run: Interruption)
      returns (outcome: Outcome, ghost spawned: seq<Node>)
    requires reg.Valid() && mgr.Valid() && mgr.currentToken == token && HasId(clicked) && !run.DuringFetch?
    modifies reg`byId, reg`ring, reg.group`children, reg.group`center, reg.group`offset, reg.group.children
    modifies reg.byId.Values`pos, clicked, NodeSet(reg.group.center)
    modifies mgr`pendingTimers, mgr`nextTimer, mgr`nextAnimation, mgr`active, mgr`fired, mgr`currentToken, mgr`issued
    modifies token`cancelCallbacks, token`cancelled
    ensures reg.Valid() && mgr.Valid() && old(mgr.issued) <= mgr.issued
    ensures outcome in {BadSynonyms, CancelledInRecenter, Stalled, Finished}
    ensures outcome == BadSynonyms <==> doc.linked.NotAList?
    ensures outcome == BadSynonyms ==> unchanged(mgr) && unchanged(token)
    ensures outcome != BadSynonyms ==>
      old(token.cancelCallbacks) + [StopFrames(old(mgr.nextAnimation))] <= token.cancelCallbacks
    ensures forall t: nat :: ClearTimer(t) in token.cancelCallbacks <==>
      ClearTimer(t) in old(token.cancelCallbacks) || old(mgr.nextTimer) <= t < mgr.nextTimer
    ensures outcome in {Stalled, Finished} ==>
      (outcome == Stalled <==> run.DuringAnimations? && run.fired < mgr.nextTimer - old(mgr.nextTimer))
    ensures outcome in {BadSynonyms, CancelledInRecenter} ==>
      reg.ring == old(reg.ring) && reg.byId == old(reg.byId) &&
      reg.group.children == old(reg.group.children) && reg.group.center == old(reg.group.center)
    ensures outcome in {CancelledInRecenter, Stalled} ==> token.cancelled
    ensures outcome != BadSynonyms ==> reg.group.offset == Zero
    ensures outcome == CancelledInRecenter ==>
      run.DuringRecenter? &&
      forall n :: n in reg.group.children ==>
        n.pos == Add(old(n.pos), Lerp(old(reg.group.offset), Sub(old(reg.group.offset), old(clicked.pos)), Reached(StoppedAt(run.t))))
    ensures outcome in {Stalled, Finished} ==>
      var list := SynonymList(doc.linked);
      var d := SplitFor(old(SynonymIds(reg.ring)), clicked, old(reg.group.center), PresentIds(list));
      MembersOf(reg) ==
        Expanded(old(MembersOf(reg)), clicked, old(reg.group.center), list, d, PresentIds(list), spawned, run, outcome == Stalled) &&
      SpritesFor(spawned, Incoming(list, d.current)) &&
      (clicked in old(reg.group.children) && clicked.id.value !in d.shared ==> clicked.pos == old(reg.group.offset))
    ensures forall n :: n in spawned ==> fresh(n)
    ensures outcome == Stalled || outcome == Finished ==>
      reg.group.center == clicked && clicked.isCenter && !clicked.isSynonym && clicked !in reg.ring
    ensures outcome == Finished ==> forall n :: n in reg.ring ==> HasId(n) && n.id.value in PresentIds(SynonymList(doc.linked))
    ensures forall n :: n in reg.ring ==> n in old(reg.ring) || n == old(reg.group.center)
    ensures forall k :: k in reg.byId ==> k in old(reg.byId) && reg.byId[k] == old(reg.byId[k])
    ensures forall n :: n in reg.group.children ==> n in old(reg.group.children) || fresh(n)
    ensures run.Undisturbed? && !doc.linked.NotAList? ==>
      (outcome == Finished && mgr.currentToken == token && token.cancelled == old(token.cancelled) &&
       mgr.pendingTimers == old(mgr.pendingTimers) && mgr.active == old(mgr.active))
  {
    var oldCenter := reg.group.center;
    var a0 := SynonymIds(reg.ring);
    if doc.linked.NotAList? {
      return BadSynonyms, [];
    }
    var list := SynonymList(doc.linked);
    var b := PresentIds(list);
    var d := SplitFor(a0, clicked, oldCenter, b);
    var targets := BuildTargetMap(doc);
    TargetsCover(list, Key(doc.id), targets);
    ghost var m0 := MembersOf(reg);
    outcome, spawned := Proceed(reg, mgr, token, clicked, list, d, b, targets, run);
    if outcome != CancelledInRecenter {
      ExpandedWithin(m0, clicked, oldCenter, list, d, b, spawned, run, outcome == Stalled);
    }
  }

  /**
   * `await recenterAnimate(clicked)` and what follows it: the recenter's
   * animation registers on the token; a recenter cancelled midway is baked
   * where it stopped and ends the call; a completed one is followed by the
   * expansion.
   */
  method Proceed(reg: Registry, mgr: TransitionManager, token: Token, clicked: Node, list: seq<Synonym>,
                 d: Split, b: seq<string>, targets: map<string, Vec3>, run: Interruption) returns (outcome: Outcome, ghost spawned: seq<Node>)
    requires reg.Valid() && mgr.Valid() && mgr.currentToken == token && !run.DuringFetch?
    requires forall s :: s in list && Present(s.id) ==> s.id.value in targets
    requires forall k :: k in d.shared ==> k in targets
    requires forall k :: k in b ==> k in targets
    requires forall k :: k in d.former ==> k !in b
    modifies reg`byId, reg`ring, reg.group`children, reg.group`center, reg.group`offset, reg.group.children
    modifies reg.byId.Values`pos, clicked, NodeSet(reg.group.center)
    modifies mgr`pendingTimers, mgr`nextTimer, mgr`nextAnimation, mgr`active, mgr`fired, mgr`currentToken, mgr`issued
    modifies token`cancelCallbacks, token`cancelled
    ensures reg.Valid() && mgr.Valid() && old(mgr.issued) <= mgr.issued
    ensures outcome in {CancelledInRecenter, Stalled, Finished}
    ensures outcome == CancelledInRecenter <==> run.DuringRecenter?
    ensures old(token.cancelCallbacks) + [StopFrames(old(mgr.nextAnimation))] <= token.cancelCallbacks
    ensures forall t: nat :: ClearTimer(t) in token.cancelCallbacks <==>
      ClearTimer(t) in old(token.cancelCallbacks) || old(mgr.nextTimer) <= t < mgr.nextTimer
    ensures mgr.nextTimer == old(mgr.nextTimer) +
      (if run.DuringRecenter? then 0 else Tasks(old(reg.byId), Anchored(old(reg.group.center), clicked), d, list))
    ensures outcome in {Stalled, Finished} ==>
      (outcome == Stalled <==> run.DuringAnimations? && run.fired < mgr.nextTimer - old(mgr.nextTimer))
    ensures outcome == CancelledInRecenter ==>
      reg.ring == old(reg.ring) && reg.byId == old(reg.byId) &&
      reg.group.children == old(reg.group.children) && reg.group.center == old(reg.group.center) &&
      reg.group.offset == Zero
    ensures outcome in {CancelledInRecenter, Stalled} ==> token.cancelled
    ensures outcome == Stalled || outcome == Finished ==>
      reg.group.center == clicked && clicked.isCenter && !clicked.isSynonym && clicked !in reg.ring
    ensures reg.group.offset == Zero
    ensures outcome != CancelledInRecenter && clicked in old(reg.group.children) && !(HasId(clicked) && clicked.id.value in d.shared) ==>
      clicked.pos == old(reg.group.offset)
    ensures outcome == CancelledInRecenter ==>
      forall n :: n in reg.group.children ==> n.pos == Add(old(n.pos), Lerp(old(reg.group.offset), Sub(old(reg.group.offset), old(clicked.pos)), Reached(StoppedAt(run.t))))
    ensures outcome != CancelledInRecenter ==>
      MembersOf(reg) ==
        Expanded(old(MembersOf(reg)), clicked, old(reg.group.center), list, d, b, spawned, run, outcome == Stalled) &&
      SpritesFor(spawned, Incoming(list, d.current))
    ensures forall n :: n in spawned ==> fresh(n)
    ensures run.Undisturbed? ==>
      (outcome == Finished && mgr.currentToken == token && token.cancelled == old(token.cancelled) &&
       mgr.pendingTimers == old(mgr.pendingTimers) && mgr.active == old(mgr.active))
  {
    if run.DuringRecenter? {
      Abandon(reg, mgr, token, clicked, run.t);
      return CancelledInRecenter, [];
    }
    outcome, spawned := Advance(reg, mgr, token, clicked, list, d, b, targets, run);
  }

  /**
   * A recenter cancelled at progress `t`: its animation registered on the token, a
   * newer call begins and the group is baked where the animation stopped.
   */
  method Abandon(reg: Registry, mgr: TransitionManager, token: Token, clicked: Node, t: real)
    requires reg.Valid() && mgr.Valid() && mgr.currentToken == token
    modifies reg.group`offset, reg.group.children
    modifies mgr`currentToken, mgr`issued, mgr`pendingTimers, mgr`active, mgr`fired, mgr`nextAnimation
    modifies token`cancelCallbacks, token`cancelled
    ensures reg.Valid() && mgr.Valid() && old(mgr.issued) <= mgr.issued && token.cancelled
    ensures mgr.nextTimer == old(mgr.nextTimer)
    ensures token.cancelCallbacks == old(token.cancelCallbacks) + [StopFrames(old(mgr.nextAnimation))]
    ensures forall t: nat :: ClearTimer(t) in token.cancelCallbacks <==> ClearTimer(t) in old(token.cancelCallbacks)
    ensures reg.group.offset == Zero
    ensures forall n :: n in reg.group.children ==>
      n.pos == Add(old(n.pos), Lerp(old(reg.group.offset), Sub(old(reg.group.offset), old(clicked.pos)), Reached(StoppedAt(t))))
  {
    var _ := mgr.RafProgress(token);
    var _ := mgr.Begin();
    RecenterAnimate(reg.group, clicked, StoppedAt(t));
    Appended(token.cancelCallbacks, token.cancelCallbacks, old(token.cancelCallbacks), old(mgr.nextAnimation), [],
             mgr.nextTimer, mgr.nextTimer);
  }

  /**
   * A recenter that completed: its animation registered on the token, the
   * group is baked at the clicked node and the expansion follows.
   */
  method Advance(reg: Registry, mgr: TransitionManager, token: Token, clicked: Node, list: seq<Synonym>,
                 d: Split, b: seq<string>, targets: map<string, Vec3>, run: Interruption) returns (outcome: Outcome, ghost spawned: seq<Node>)
    requires reg.Valid() && mgr.Valid() && mgr.currentToken == token
    requires run.Undisturbed? || run.DuringAnimations?
    requires forall s :: s in list && Present(s.id) ==> s.id.value in targets
    requires forall k :: k in d.shared ==> k in targets
    requires forall k :: k in b ==> k in targets
    requires forall k :: k in d.former ==> k !in b
    modifies reg`byId, reg`ring, reg.group`children, reg.group`center, reg.group`offset, reg.group.children
    modifies reg.byId.Values`pos, clicked, NodeSet(reg.group.center)
    modifies mgr`pendingTimers, mgr`nextTimer, mgr`nextAnimation, mgr`active, mgr`fired, mgr`currentToken, mgr`issued
    modifies token`cancelCallbacks, token`cancelled
    ensures reg.Valid() && mgr.Valid()
    ensures outcome == Stalled || outcome == Finished
    ensures mgr.nextTimer == old(mgr.nextTimer) + Tasks(old(reg.byId), Anchored(old(reg.group.center), clicked), d, list)
    ensures old(token.cancelCallbacks) + [StopFrames(old(mgr.nextAnimation))] <= token.cancelCallbacks
    ensures forall t: nat :: ClearTimer(t) in token.cancelCallbacks <==>
      ClearTimer(t) in old(token.cancelCallbacks) || old(mgr.nextTimer) <= t < mgr.nextTimer
    ensures outcome == Stalled <==> run.DuringAnimations? && run.fired < mgr.nextTimer - old(mgr.nextTimer)
    ensures run.Undisturbed? ==>
      (mgr.currentToken == token && token.cancelled == old(token.cancelled) &&
       mgr.pendingTimers == old(mgr.pendingTimers) && mgr.active == old(mgr.active))
    ensures run.DuringAnimations? ==> token.cancelled
    ensures old(mgr.issued) <= mgr.issued
    ensures reg.group.center == clicked && clicked.isCenter && !clicked.isSynonym && clicked !in reg.ring
    ensures reg.group.offset == Zero
    ensures clicked in old(reg.group.children) && !(HasId(clicked) && clicked.id.value in d.shared) ==>
      clicked.pos == old(reg.group.offset)
    ensures MembersOf(reg) ==
      Expanded(old(MembersOf(reg)), clicked, old(reg.group.center), list, d, b, spawned, run, outcome == Stalled)
    ensures forall n :: n in spawned ==> fresh(n)
    ensures SpritesFor(spawned, Incoming(list, d.current))
  {
    var _ := mgr.RafProgress(token);
    ghost var mid, timer, anim := token.cancelCallbacks, mgr.nextTimer, mgr.nextAnimation;
    ghost var oldCenter := reg.group.center;
    ghost var n := Tasks(reg.byId, Anchored(oldCenter, clicked), d, list);
    ghost var adopted := Anchored(oldCenter, clicked) && Refetched(oldCenter, b);
    ghost var collapse := Anchored(oldCenter, clicked) && !Refetched(oldCenter, b);
    outcome, spawned := Arrive(reg, mgr, token, clicked, list, d, b, targets, run);
    ghost var k := Started(CutAt(run), n);
    RegisteredTimers(timer, anim, adopted, n, k, collapse && k == n);
    Appended(token.cancelCallbacks, mid, old(token.cancelCallbacks), old(mgr.nextAnimation),
             Expansion(timer, anim, adopted, collapse, n, run), timer, mgr.nextTimer);
  }

  /** The recenter's bake at the clicked node, then the expansion. */
  method Arrive(reg: Registry, mgr: TransitionManager, token: Token, clicked: Node, list: seq<Synonym>,
                d: Split, b: seq<string>, targets: map<string, Vec3>, run: Interruption) returns (outcome: Outcome, ghost spawned: seq<Node>)
    requires reg.Valid() && mgr.Valid() && mgr.currentToken == token
    requires run.Undisturbed? || run.DuringAnimations?
    requires forall s :: s in list && Present(s.id) ==> s.id.value in targets
    requires forall k :: k in d.shared ==> k in targets
    requires forall k :: k in b ==> k in targets
    requires forall k :: k in d.former ==> k !in b
    modifies reg`byId, reg`ring, reg.group`children, reg.group`center, reg.group`offset, reg.group.children
    modifies reg.byId.Values`pos, clicked, NodeSet(reg.group.center)
    modifies mgr`pendingTimers, mgr`nextTimer, mgr`nextAnimation, mgr`active, mgr`fired, mgr`currentToken, mgr`issued
    modifies token`cancelCallbacks, token`cancelled
    ensures reg.Valid() && mgr.Valid()
    ensures outcome == Stalled || outcome == Finished
    ensures mgr.nextTimer == old(mgr.nextTimer) + Tasks(old(reg.byId), Anchored(old(reg.group.center), clicked), d, list)
    ensures token.cancelCallbacks == old(token.cancelCallbacks) +
      Expansion(old(mgr.nextTimer), old(mgr.nextAnimation),
                Anchored(old(reg.group.center), clicked) && Refetched(old(reg.group.center), b),
                Anchored(old(reg.group.center), clicked) && !Refetched(old(reg.group.center), b),
                Tasks(old(reg.byId), Anchored(old(reg.group.center), clicked), d, list), run)
    ensures outcome == Stalled <==> run.DuringAnimations? && run.fired < mgr.nextTimer - old(mgr.nextTimer)
    ensures run.Undisturbed? ==>
      (mgr.currentToken == token && token.cancelled == old(token.cancelled) &&
       mgr.pendingTimers == old(mgr.pendingTimers) && mgr.active == old(mgr.active))
    ensures run.DuringAnimations? ==> token.cancelled
    ensures old(mgr.issued) <= mgr.issued
    ensures reg.group.center == clicked && clicked.isCenter && !clicked.isSynonym && clicked !in reg.ring
    ensures reg.group.offset == Zero
    ensures clicked in old(reg.group.children) && !(HasId(clicked) && clicked.id.value in d.shared) ==>
      clicked.pos == old(reg.group.offset)
    ensures MembersOf(reg) ==
      Expanded(old(MembersOf(reg)), clicked, old(reg.group.center), list, d, b, spawned, run, outcome == Stalled)
    ensures forall n :: n in spawned ==> fresh(n)
    ensures SpritesFor(spawned, Incoming(list, d.current))
  {
    RecenterAnimate(reg.group, clicked, Completed);
    outcome, spawned := Expand(reg, mgr, token, clicked, reg.group.center, list, d, b, targets, run);
  }
}
