/**
 * The term document that the repository returns (`loadTermById`), and what
 * src/flow/transition.js derives from it: the fetched ids `B` and the map of
 * target positions (`buildTargetMapFromDoc`).  `getId` is not part of this
 * model; its result is the `id` field of each record.
 */
module TermDocs {
  import opened Wrappers
  import opened Vectors

  /** One entry of `linked_synonyms`: its id, its label and its target `(x, y, z)`. */
  datatype Synonym = Synonym(id: Option<string>, term: string, pos: Vec3)

  /** The `linked_synonyms` field: falsy, present but not an array, or an array. */
  datatype Linked = Absent | NotAList | Items(list: seq<Synonym>)

  datatype TermDoc = TermDoc(id: Option<string>, term: Option<string>, linked: Linked)

  /** `Array.isArray(doc.linked_synonyms) ? doc.linked_synonyms : []`. */
  function SynonymList(l: Linked): seq<Synonym> {
    if l.Items? then l.list else []
  }

  /** The property name under which a plain object stores `getId(x)`: `undefined` becomes `"undefined"`. */
  function Key(id: Option<string>): string {
    if id.Some? then id.value else "undefined"
  }

  /** `list.map(getId).filter(Boolean)`: the present ids, in list order. */
  function PresentIds(list: seq<Synonym>): (ids: seq<string>)
    ensures |ids| <= |list|
    ensures forall x :: x in ids ==> x != "" && exists s :: s in list && s.id == Some(x)
    ensures forall s :: s in list && Present(s.id) ==> s.id.value in ids
  {
    if list == [] then []
    else
      var rest := PresentIds(list[1..]);
      assert list == [list[0]] + list[1..];
      if Present(list[0].id) then [list[0].id.value] + rest else rest
  }

  /** Where the last synonym stored under key `k` sits: later entries overwrite earlier ones. */
  function LastPos(list: seq<Synonym>, k: string): (p: Option<Vec3>)
    ensures p.None? <==> forall s :: s in list ==> Key(s.id) != k
    ensures p.Some? ==> exists i :: (0 <= i < |list| && Key(list[i].id) == k && list[i].pos == p.value &&
      forall j :: i < j < |list| ==> Key(list[j].id) != k)
  {
    if list == [] then None
    else
      var init, last := list[..|list| - 1], list[|list| - 1];
      assert list == init + [last];
      if Key(last.id) == k then Some(last.pos)
      else
        var q := LastPos(init, k);
        assert q.Some? ==> forall i :: 0 <= i < |init| ==> list[i] == init[i];
        q
  }

  /**
   * `buildTargetMapFromDoc`: every synonym's key maps to the position of the
   * last synonym with that key, and the document's own key maps to the origin.
   */
  method BuildTargetMap(doc: TermDoc) returns (m: map<string, Vec3>)
    ensures Key(doc.id) in m && m[Key(doc.id)] == Zero
    ensures forall k :: k in m <==> k == Key(doc.id) || LastPos(SynonymList(doc.linked), k).Some?
    ensures forall k :: k in m && k != Key(doc.id) ==> LastPos(SynonymList(doc.linked), k) == Some(m[k])
  {
    var list := SynonymList(doc.linked);
    m := map[];
    var i := 0;
    while i < |list|
      invariant 0 <= i <= |list|
      invariant forall k :: k in m <==> LastPos(list[..i], k).Some?
      invariant forall k :: k in m ==> LastPos(list[..i], k) == Some(m[k])
    {
      assert list[..i + 1][..i] == list[..i];
      m := m[Key(list[i].id) := list[i].pos];
      i := i + 1;
    }
    assert list[..i] == list;
    m := m[Key(doc.id) := Zero];
  }
}
