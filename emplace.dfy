/**
 * What `emplace_unique_field` does to the tree, as a function of the tree
 * before, and the three outcomes the code distinguishes.
 */
module Emplace {
  import opened Wrappers
  import opened Xml
  import opened Document
  import opened XPath

  /**
   * The tree after `emplace_unique_field(tag, ind1, ind2, code, value)`: when
   * no subfield with `code` exists anywhere, the first datafield matching `f`
   * (or a new one) gets the subfield and becomes the root's last child.
   */
  function EmplacedUnique(root: Node, f: FieldRef, s: SubfieldRef): (r: Node)
    ensures r.tag == root.tag && r.attrs == root.attrs && r.text == root.text
    ensures |root.children| <= |r.children| <= |root.children| + 1
    ensures !AnySubfield(root.children, s.code) ==>
      && |r.children| > 0
      && var last := r.children[|r.children| - 1];
      && MatchesField(last, f) && |last.children| > 0
      && last.children[|last.children| - 1] == SubfieldElement(s.code, s.value)
  {
    if AnySubfield(root.children, s.code) then root
    else
      match FirstDatafield(root.children, f)
      case None => AppendChild(root, DatafieldElement(f.tag, f.ind1, f.ind2, s.code, s.value))
      case Some(p) =>
        root.(children := RemoveAt(root.children, p) + [AppendChild(NodeAt(root.children, p), SubfieldElement(s.code, s.value))])
  }

  /** Some subfield with `code` lies anywhere below the root. */
  ghost predicate CodePresent(root: Node, code: string) {
    exists x :: x in Preorder(root.children) && IsSubfieldWithCode(x, code)
  }

  /** Some datafield matching `f` lies anywhere below the root. */
  ghost predicate FieldPresent(root: Node, f: FieldRef) {
    exists x :: x in Preorder(root.children) && MatchesField(x, f)
  }

  /**
   * The three outcomes: nothing changes when a subfield with the code exists,
   * whatever its value and its datafield; otherwise the first matching
   * datafield in document order gets the subfield and moves to the end; and
   * when none matches a new datafield is appended.
   */
  lemma UniqueFieldOutcomes(root: Node, f: FieldRef, s: SubfieldRef)
    ensures CodePresent(root, s.code) ==> EmplacedUnique(root, f, s) == root
    ensures !CodePresent(root, s.code) && !FieldPresent(root, f) ==>
      EmplacedUnique(root, f, s) == AppendChild(root, DatafieldElement(f.tag, f.ind1, f.ind2, s.code, s.value))
    ensures !CodePresent(root, s.code) && FieldPresent(root, f) ==> exists p ::
      && ValidPath(root.children, p) && MatchesField(NodeAt(root.children, p), f)
      && (forall x :: x in Before(root.children, p) ==> !MatchesField(x, f))
      && EmplacedUnique(root, f, s) == root.(children := RemoveAt(root.children, p)
           + [AppendChild(NodeAt(root.children, p), SubfieldElement(s.code, s.value))])
  {
    AnySubfieldIff(root.children, s.code);
    FirstDatafieldIsFirst(root.children, f);
    match FirstDatafield(root.children, f)
    case None =>
    case Some(p) =>
      BeforeIsPrefix(root.children, p);
      assert NodeAt(root.children, p) in Preorder(root.children);
  }

  /** When it adds a subfield, `contains` then finds it: it is the only one with its code. */
  lemma UniqueFieldThenContains(root: Node, f: FieldRef, s: SubfieldRef)
    requires !AnySubfield(root.children, s.code)
    ensures Contains(EmplacedUnique(root, f, s), f, s)
  {
    match FirstDatafield(root.children, f)
    case None =>
      SelectedNeedsSubfield(root.children, f, s.code, false);
      ContainsAfterEmplaceField(root, f, s);
    case Some(p) =>
      RemoveAtNoSubfield(root.children, p, s.code);
      UniqueFieldContains(root, RemoveAt(root.children, p), NodeAt(root.children, p), f, s);
  }

  /** Afterwards a subfield with `code` always exists. */
  lemma UniqueFieldLeavesCode(root: Node, f: FieldRef, s: SubfieldRef)
    ensures AnySubfield(EmplacedUnique(root, f, s).children, s.code)
  {
    if !AnySubfield(root.children, s.code) {
      var cs := EmplacedUnique(root, f, s).children;
      var last := cs[|cs| - 1];
      var sub := SubfieldElement(s.code, s.value);
      assert AnySubfield([last], s.code) by {
        assert last.children == last.children[..|last.children| - 1] + [sub];
        assert AnySubfield([sub], s.code);
        AnySubfieldAppend(last.children[..|last.children| - 1], [sub], s.code);
      }
      assert cs == cs[..|cs| - 1] + [last];
      AnySubfieldAppend(cs[..|cs| - 1], [last], s.code);
    }
  }

  /** A second call with the same code changes nothing, whatever the tag, indicators and value. */
  lemma UniqueFieldIdempotent(root: Node, f: FieldRef, s: SubfieldRef, f': FieldRef, value': string)
    ensures EmplacedUnique(EmplacedUnique(root, f, s), f', SubfieldRef(s.code, value')) == EmplacedUnique(root, f, s)
  {
    UniqueFieldLeavesCode(root, f, s);
  }
}
