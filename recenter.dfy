/**
 * The geometric steps of src/flow/transition.js: baking the group's translation
 * into its children, the recentering translation of the group, and the point
 * where a new synonym's sprite appears.
 */
module Recenter {
  import opened Vectors
  import opened Lists
  import opened SceneGraph
  import opened Timing

  /**
   * `bakeGroupOffsetToChildren`: the group's translation is added to every
   * child's position and reset to the origin, so every child keeps its world
   * position.  With no translation nothing changes.
   */
  method BakeGroupOffsetToChildren(g: Group)
    requires NoDup(g.children)
    modifies g`offset, g.children
    ensures g.offset == Zero
    ensures forall n :: n in g.children ==> n.pos == Add(old(n.pos), old(g.offset))
    ensures forall n :: n in g.children ==> Add(g.offset, n.pos) == Add(old(g.offset), old(n.pos))
    ensures old(g.offset) == Zero ==> forall n :: n in g.children ==> n.pos == old(n.pos)
  {
    if g.offset != Zero {
      var off := g.offset;
      var i := 0;
      while i < |g.children|
        invariant 0 <= i <= |g.children|
        invariant g.offset == off
        invariant forall j :: 0 <= j < i ==> g.children[j].pos == Add(old(g.children[j].pos), off)
        invariant forall j :: i <= j < |g.children| ==> g.children[j].pos == old(g.children[j].pos)
      {
        var obj := g.children[i];
        obj.pos := Add(obj.pos, off);
        i := i + 1;
      }
      g.offset := Zero;
    }
  }

  /**
   * How a recentering animation ends: it reaches its last frame (progress
   * 1), or the token is cancelled after the frame whose progress was `t`
   * (0 when no frame ran, since the group then stays where it started).
   */
  datatype Progress = Completed | StoppedAt(t: real)

  /** The eased fraction `easeInOutQuad(t)` of the last frame that ran. */
  function Reached(p: Progress): (e: real)
    ensures p.Completed? ==> e == 1.0
    ensures p.StoppedAt? && 0.0 <= p.t <= 1.0 ==> 0.0 <= e <= 1.0
    ensures p.StoppedAt? && p.t == 0.0 ==> e == 0.0
  {
    var t := if p.Completed? then 1.0 else p.t;
    if 0.0 <= t <= 1.0 then EaseMonotone(0.0, t); EaseInOutQuad(t) else EaseInOutQuad(t)
  }

  /**
   * `recenterAnimate(target)` followed by its bake: the group is translated
   * from its offset towards `offset - target.pos` and the last translation
   * reached is baked into the children.  A completed recenter puts the target
   * where the group's origin was, so the world position of the target becomes
   * the origin.
   */
  method RecenterAnimate(g: Group, target: Node, progress: Progress)
    requires NoDup(g.children)
    modifies g`offset, g.children
    ensures g.offset == Zero
    ensures forall n :: n in g.children ==>
      n.pos == Add(old(n.pos), Lerp(old(g.offset), Sub(old(g.offset), old(target.pos)), Reached(progress)))
    ensures progress.Completed? && target in g.children ==> target.pos == old(g.offset)
  {
    var from := g.offset;
    var to := Sub(from, target.pos);
    g.offset := Lerp(from, to, Reached(progress));
    BakeGroupOffsetToChildren(g);
  }

  /**
   * Where a fresh sprite appears: 15% of the way from the new centre towards
   * its target, or at the centre when the two coincide.
   */
  function SpawnPoint(center: Vec3, target: Vec3): (p: Vec3)
    ensures p == Lerp(center, target, 0.15)
  {
    var dir := Sub(target, center);
    if dir == Zero then center else Add(center, Scale(dir, 0.15))
  }
}
