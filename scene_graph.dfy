/**
 * The scene objects the core touches: a displayed node (a THREE sprite with its
 * `userData`) and the shared `nodeGroup` (src/scene/scene.js).  Rendering
 * resources (canvas, texture, material) are not part of this model.
 */
module SceneGraph {
  import opened Wrappers
  import opened Vectors
  import opened Lists

  /** A sprite: `userData.id`, `userData.term`, its position and the two role flags. */
  class Node {
    const id: Option<string>
    const term: Option<string>
    var pos: Vec3
    var isSynonym: bool
    var isCenter: bool

    /** `createTextSprite(term)` followed by setting `position` and `userData`. */
    constructor (id: Option<string>, term: Option<string>, pos: Vec3, isSynonym: bool, isCenter: bool)
      ensures this.id == id && this.term == term && this.pos == pos
      ensures this.isSynonym == isSynonym && this.isCenter == isCenter
    {
      this.id := id;
      this.term := term;
      this.pos := pos;
      this.isSynonym := isSynonym;
      this.isCenter := isCenter;
    }
  }

  /** The node, if any, as a frame. */
  function NodeSet(n: Node?): set<Node> {
    if n == null then {} else {n}
  }

  /** `obj?.userData?.id` is truthy. */
  predicate HasId(n: Node) {
    Present(n.id)
  }

  /** The ids of the nodes that have one. */
  function IdsOf(nodes: seq<Node>): set<string> {
    set n | n in nodes && HasId(n) :: n.id.value
  }

  /** `nodeGroup`: its ordered children, its translation and `userData.center`. */
  class Group {
    var children: seq<Node>
    var offset: Vec3
    var center: Node?

    constructor ()
      ensures children == [] && offset == Zero && center == null
    {
      children := [];
      offset := Zero;
      center := null;
    }

    /** `Object3D.add`: detach from the old parent, then append. */
    method Add(n: Node)
      modifies this`children
      ensures children == RemoveFirst(old(children), n) + [n]
    {
      children := RemoveFirst(children, n) + [n];
    }

    /** `Object3D.remove`: splice out the child if it is one. */
    method Remove(n: Node)
      modifies this`children
      ensures children == RemoveFirst(old(children), n)
    {
      var i := IndexOf(children, n);
      if i != -1 {
        children := children[..i] + children[i + 1..];
      }
    }
  }
}
