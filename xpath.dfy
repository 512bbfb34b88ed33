/**
 * The three XPath queries that `Marc21Metadata` runs against its root:
 *   `.//datafield[@ind1=.. and @ind2=.. and @tag=..]//subfield[@code=..]` (Selected),
 *   `.//datafield[@ind1=.. and @ind2=.. and @tag=..]` (FirstDatafield, its first hit),
 *   `.//subfield[@code=..]` (AnySubfield, whether it hits).
 * `.//` searches the descendants of the root, not the root itself, so each
 * query runs over the forest of the root's children. Results come in
 * document order.
 */
module XPath {
  import opened Wrappers
  import opened Xml
  import opened Document

  /** The `ref_df` dict: keys tag, ind1, ind2. */
  datatype FieldRef = FieldRef(tag: string, ind1: string, ind2: string)
  /** The `ref_sf` dict: keys code, value. */
  datatype SubfieldRef = SubfieldRef(code: string, value: string)

  predicate MatchesField(n: Node, f: FieldRef) {
    n.tag == "datafield" && HasAttr(n, "ind1", f.ind1) && HasAttr(n, "ind2", f.ind2) && HasAttr(n, "tag", f.tag)
  }

  predicate IsSubfieldWithCode(n: Node, code: string) {
    n.tag == "subfield" && HasAttr(n, "code", code)
  }

  /**
   * The subfields with `code` that lie below a datafield matching `f`, in
   * document order; `inside` says that the forest itself lies below one.
   */
  function Selected(ns: seq<Node>, f: FieldRef, code: string, inside: bool): (r: seq<Node>)
    ensures forall x :: x in r ==> x in Preorder(ns) && IsSubfieldWithCode(x, code)
    decreases ns
  {
    if ns == [] then []
    else
      (if inside && IsSubfieldWithCode(ns[0], code) then [ns[0]] else [])
      + Selected(ns[0].children, f, code, inside || MatchesField(ns[0], f))
      + Selected(ns[1..], f, code, inside)
  }

  /**
   * `contains(ref_df, ref_sf)`: the query finds a subfield and the first one
   * it finds has text `ref_sf["value"]`.
   */
  function Contains(root: Node, f: FieldRef, s: SubfieldRef): (r: bool)
    ensures r ==> exists x :: x in Preorder(root.children) && IsSubfieldWithCode(x, s.code) && x.text == Some(s.value)
    ensures r ==> AnySubfield(root.children, s.code)
  {
    var found := Selected(root.children, f, s.code, false);
    AnySubfieldIff(root.children, s.code);
    |found| > 0 && found[0].text == Some(s.value)
  }

  /** The first datafield matching `f` in document order, as a path. */
  function FirstDatafield(ns: seq<Node>, f: FieldRef): (r: Option<Path>)
    ensures r.Some? ==> ValidPath(ns, r.value) && MatchesField(NodeAt(ns, r.value), f)
    decreases ns
  {
    if ns == [] then None
    else if MatchesField(ns[0], f) then Some([0])
    else match FirstDatafield(ns[0].children, f)
      case Some(p) => Some([0] + p)
      case None =>
        match FirstDatafield(ns[1..], f)
        case Some(p) =>
          var q := [p[0] + 1] + p[1..];
          assert q[1..] == p[1..];
          Some(q)
        case None => None
  }

  /** Whether some subfield with `code` lies anywhere in the forest. */
  predicate AnySubfield(ns: seq<Node>, code: string)
    ensures AnySubfield(ns, code) ==> exists x :: x in Preorder(ns) && IsSubfieldWithCode(x, code)
    decreases ns
  {
    ns != [] && (IsSubfieldWithCode(ns[0], code) || AnySubfield(ns[0].children, code) || AnySubfield(ns[1..], code))
  }

  /** A pair of a matching datafield and a subfield with `code` below it, anywhere in the forest. */
  ghost predicate HasMatchingPair(ns: seq<Node>, f: FieldRef, code: string) {
    exists d, x :: d in Preorder(ns) && MatchesField(d, f) && x in Preorder(d.children) && IsSubfieldWithCode(x, code)
  }

  // ---------------------------------------------------------------------------
  // Document order

  lemma {:induction false} SelectedAppend(a: seq<Node>, b: seq<Node>, f: FieldRef, code: string, inside: bool)
    ensures Selected(a + b, f, code, inside) == Selected(a, f, code, inside) + Selected(b, f, code, inside)
    decreases a
  {
    if a == [] {
      assert a + b == b;
    } else {
      assert (a + b)[0] == a[0];
      assert (a + b)[1..] == a[1..] + b;
      SelectedAppend(a[1..], b, f, code, inside);
    }
  }

  /** Inside a matching datafield the query keeps every subfield with `code`. */
  lemma {:induction false} SelectedInside(ns: seq<Node>, f: FieldRef, code: string)
    ensures Selected(ns, f, code, true) == [] <==> !AnySubfield(ns, code)
    decreases ns
  {
    if ns != [] {
      SelectedInside(ns[0].children, f, code);
      SelectedInside(ns[1..], f, code);
    }
  }

  /** What the query finds is a subfield with `code`, in the forest, below a matching datafield. */
  lemma {:induction false} SelectedSound(ns: seq<Node>, f: FieldRef, code: string, inside: bool, x: Node)
    requires x in Selected(ns, f, code, inside)
    ensures IsSubfieldWithCode(x, code) && x in Preorder(ns)
    ensures inside || exists d :: d in Preorder(ns) && MatchesField(d, f) && x in Preorder(d.children)
    decreases ns
  {
    var head := if inside && IsSubfieldWithCode(ns[0], code) then [ns[0]] else [];
    var inner := inside || MatchesField(ns[0], f);
    if x in head {
    } else if x in Selected(ns[0].children, f, code, inner) {
      SelectedSound(ns[0].children, f, code, inner, x);
      if !inside {
        if MatchesField(ns[0], f) {
          assert ns[0] in Preorder(ns);
        } else {
          var d :| d in Preorder(ns[0].children) && MatchesField(d, f) && x in Preorder(d.children);
          assert d in Preorder(ns);
        }
      }
    } else {
      SelectedSound(ns[1..], f, code, inside, x);
      if !inside {
        var d :| d in Preorder(ns[1..]) && MatchesField(d, f) && x in Preorder(d.children);
        assert d in Preorder(ns);
      }
    }
  }

  lemma {:induction false} AnySubfieldFound(ns: seq<Node>, code: string, x: Node)
    requires x in Preorder(ns) && IsSubfieldWithCode(x, code)
    ensures AnySubfield(ns, code)
    decreases ns
  {
    if x != ns[0] {
      if x in Preorder(ns[0].children) {
        AnySubfieldFound(ns[0].children, code, x);
      } else {
        AnySubfieldFound(ns[1..], code, x);
      }
    }
  }

  lemma {:induction false} AnySubfieldWitness(ns: seq<Node>, code: string)
    requires AnySubfield(ns, code)
    ensures exists x :: x in Preorder(ns) && IsSubfieldWithCode(x, code)
    decreases ns
  {
    if IsSubfieldWithCode(ns[0], code) {
      assert ns[0] in Preorder(ns);
    } else if AnySubfield(ns[0].children, code) {
      AnySubfieldWitness(ns[0].children, code);
      var x :| x in Preorder(ns[0].children) && IsSubfieldWithCode(x, code);
      assert x in Preorder(ns);
    } else {
      AnySubfieldWitness(ns[1..], code);
      var x :| x in Preorder(ns[1..]) && IsSubfieldWithCode(x, code);
      assert x in Preorder(ns);
    }
  }

  /** `.//subfield[@code=..]` hits exactly when some subfield with that code is in the forest. */
  lemma AnySubfieldIff(ns: seq<Node>, code: string)
    ensures AnySubfield(ns, code) <==> exists x :: x in Preorder(ns) && IsSubfieldWithCode(x, code)
  {
    if AnySubfield(ns, code) {
      AnySubfieldWitness(ns, code);
    } else if x :| x in Preorder(ns) && IsSubfieldWithCode(x, code) {
      AnySubfieldFound(ns, code, x);
    }
  }

  /** Inside a matching datafield the query returns every subfield with `code` of the forest. */
  lemma {:induction false} SelectedInsideAll(ns: seq<Node>, f: FieldRef, code: string, x: Node)
    requires x in Preorder(ns) && IsSubfieldWithCode(x, code)
    ensures x in Selected(ns, f, code, true)
    decreases ns
  {
    if x == ns[0] {
    } else if x in Preorder(ns[0].children) {
      SelectedInsideAll(ns[0].children, f, code, x);
    } else {
      SelectedInsideAll(ns[1..], f, code, x);
    }
  }

  /** Every subfield with `code` below a matching datafield is among the nodes the query returns. */
  lemma {:induction false} SelectedComplete(ns: seq<Node>, f: FieldRef, code: string, inside: bool, d: Node, x: Node)
    requires d in Preorder(ns) && MatchesField(d, f)
    requires x in Preorder(d.children) && IsSubfieldWithCode(x, code)
    ensures x in Selected(ns, f, code, inside)
    decreases ns
  {
    var inner := inside || MatchesField(ns[0], f);
    if d == ns[0] {
      SelectedInsideAll(ns[0].children, f, code, x);
    } else if d in Preorder(ns[0].children) {
      if inner {
        NodeAtDescendantsOfMember(ns[0].children, d, x);
        SelectedInsideAll(ns[0].children, f, code, x);
      } else {
        SelectedComplete(ns[0].children, f, code, inner, d, x);
      }
    } else {
      SelectedComplete(ns[1..], f, code, inside, d, x);
    }
  }

  /** The descendants of a node of the forest are nodes of the forest. */
  lemma {:induction false} NodeAtDescendantsOfMember(ns: seq<Node>, d: Node, x: Node)
    requires d in Preorder(ns) && x in Preorder(d.children)
    ensures x in Preorder(ns)
    decreases ns
  {
    if d == ns[0] {
    } else if d in Preorder(ns[0].children) {
      NodeAtDescendantsOfMember(ns[0].children, d, x);
    } else {
      NodeAtDescendantsOfMember(ns[1..], d, x);
    }
  }

  /**
   * The `contains` query hits exactly when some datafield matching the
   * reference has a subfield with the code below it.
   */
  lemma QueryHitsIff(ns: seq<Node>, f: FieldRef, code: string)
    ensures Selected(ns, f, code, false) != [] <==> HasMatchingPair(ns, f, code)
  {
    var found := Selected(ns, f, code, false);
    if found != [] {
      SelectedSound(ns, f, code, false, found[0]);
    } else if HasMatchingPair(ns, f, code) {
      var d, x :| d in Preorder(ns) && MatchesField(d, f) && x in Preorder(d.children) && IsSubfieldWithCode(x, code);
      SelectedComplete(ns, f, code, false, d, x);
    }
  }

  /**
   * `contains` is truthy only when a matching datafield holds a subfield
   * with the code and that value; with no matching pair it is falsy.
   */
  lemma ContainsMeansPair(root: Node, f: FieldRef, s: SubfieldRef)
    ensures Contains(root, f, s) ==> exists d, x ::
      && d in Preorder(root.children) && MatchesField(d, f)
      && x in Preorder(d.children) && IsSubfieldWithCode(x, s.code) && x.text == Some(s.value)
    ensures !HasMatchingPair(root.children, f, s.code) ==> !Contains(root, f, s)
  {
    QueryHitsIff(root.children, f, s.code);
    var found := Selected(root.children, f, s.code, false);
    if Contains(root, f, s) {
      SelectedSound(root.children, f, s.code, false, found[0]);
    }
  }

  /** Once the query hits, appending a child to the root does not change the answer of `contains`. */
  lemma ContainsStableUnderAppend(root: Node, child: Node, f: FieldRef, s: SubfieldRef)
    requires Selected(root.children, f, s.code, false) != []
    ensures Contains(AppendChild(root, child), f, s) == Contains(root, f, s)
  {
    SelectedAppend(root.children, [child], f, s.code, false);
  }

  /**
   * When the query does not hit yet, after `emplace_field` with the same
   * reference `contains` holds.
   */
  lemma ContainsAfterEmplaceField(root: Node, f: FieldRef, s: SubfieldRef)
    requires Selected(root.children, f, s.code, false) == []
    ensures Contains(AppendChild(root, DatafieldElement(f.tag, f.ind1, f.ind2, s.code, s.value)), f, s)
  {
    var df := DatafieldElement(f.tag, f.ind1, f.ind2, s.code, s.value);
    SelectedNewDatafield(f, s);
    SelectedAppend(root.children, [df], f, s.code, false);
    assert Selected(root.children + [df], f, s.code, false) == [SubfieldElement(s.code, s.value)];
  }

  /** The query over a new datafield from `emplace_field` finds its one subfield. */
  lemma SelectedNewDatafield(f: FieldRef, s: SubfieldRef)
    ensures Selected([DatafieldElement(f.tag, f.ind1, f.ind2, s.code, s.value)], f, s.code, false)
      == [SubfieldElement(s.code, s.value)]
  {
    var df := DatafieldElement(f.tag, f.ind1, f.ind2, s.code, s.value);
    var sub := SubfieldElement(s.code, s.value);
    assert Selected(df.children, f, s.code, true) == [sub] by {
      assert df.children == [sub] && [sub][1..] == [];
    }
    assert MatchesField(df, f) && [df][1..] == [];
  }

  // ---------------------------------------------------------------------------
  // The first matching datafield

  /**
   * `FirstDatafield` finds the first matching datafield in document order:
   * no node before it matches, and when it finds none, no node matches.
   */
  lemma {:induction false} FirstDatafieldIsFirst(ns: seq<Node>, f: FieldRef)
    ensures match FirstDatafield(ns, f)
      case Some(p) => forall x :: x in Before(ns, p) ==> !MatchesField(x, f)
      case None => forall x :: x in Preorder(ns) ==> !MatchesField(x, f)
    decreases ns
  {
    if ns != [] && !MatchesField(ns[0], f) {
      FirstDatafieldIsFirst(ns[0].children, f);
      FirstDatafieldIsFirst(ns[1..], f);
      match FirstDatafield(ns[0].children, f)
      case Some(p) =>
        assert Before(ns, [0] + p) == Preorder(ns[..0]) + [ns[0]] + Before(ns[0].children, p);
      case None =>
        match FirstDatafield(ns[1..], f)
        case Some(p) =>
          var q := [p[0] + 1] + p[1..];
          assert ns[1..][..p[0]] == ns[1..q[0]];
          assert ns[..q[0]] == [ns[0]] + ns[1..q[0]];
          assert Preorder(ns[..q[0]]) == [ns[0]] + Preorder(ns[0].children) + Preorder(ns[1..q[0]]);
          if |p| > 1 {
            assert q[1..] == p[1..];
            assert ns[q[0]] == ns[1..][p[0]];
          }
        case None =>
    }
  }

  // ---------------------------------------------------------------------------
  // The first hit of the `contains` query

  /** Some node strictly above the end of `p`, along `p`, is a datafield matching `f`. */
  predicate Below(ns: seq<Node>, f: FieldRef, p: Path)
    requires ValidPath(ns, p)
    decreases p
  {
    |p| > 1 && (MatchesField(ns[p[0]], f) || Below(ns[p[0]].children, f, p[1..]))
  }

  /**
   * `p` names a node the query selects: a subfield with `code` below a
   * matching datafield (anywhere, when the forest lies `inside` one).
   */
  predicate Hit(ns: seq<Node>, f: FieldRef, code: string, inside: bool, p: Path) {
    ValidPath(ns, p) && IsSubfieldWithCode(NodeAt(ns, p), code) && (inside || Below(ns, f, p))
  }

  /** A path into the first tree of the forest, seen from the forest and from that tree's children. */
  lemma HitUnderFirst(ns: seq<Node>, f: FieldRef, code: string, inside: bool, p: Path)
    requires ns != [] && ValidPath(ns[0].children, p)
    ensures var q := [0] + p;
      && q[1..] == p && ValidPath(ns, q) && NodeAt(ns, q) == NodeAt(ns[0].children, p)
      && (Hit(ns, f, code, inside, q) <==> Hit(ns[0].children, f, code, inside || MatchesField(ns[0], f), p))
  {
    var q := [0] + p;
    assert q[1..] == p;
    if MatchesField(ns[0], f) {
      assert Below(ns, f, q);
    }
  }

  /** A path into a later tree of the forest, seen from the forest and from the forest without its first tree. */
  lemma HitInRest(ns: seq<Node>, f: FieldRef, code: string, inside: bool, p: Path)
    requires ns != [] && ValidPath(ns[1..], p)
    ensures var q := [p[0] + 1] + p[1..];
      && ValidPath(ns, q) && NodeAt(ns, q) == NodeAt(ns[1..], p)
      && (Hit(ns, f, code, inside, q) <==> Hit(ns[1..], f, code, inside, p))
  {
    var q := [p[0] + 1] + p[1..];
    assert q[1..] == p[1..] && ns[q[0]] == ns[1..][p[0]];
  }

  /** Every path the query selects names a node of its result: the query is complete. */
  lemma {:induction false} SelectedHit(ns: seq<Node>, f: FieldRef, code: string, inside: bool, p: Path)
    requires Hit(ns, f, code, inside, p)
    ensures NodeAt(ns, p) in Selected(ns, f, code, inside)
    decreases ns
  {
    var inner := inside || MatchesField(ns[0], f);
    if p[0] == 0 {
      if |p| > 1 {
        HitUnderFirst(ns, f, code, inside, p[1..]);
        assert [0] + p[1..] == p;
        SelectedHit(ns[0].children, f, code, inner, p[1..]);
      }
    } else {
      var p' := [p[0] - 1] + p[1..];
      assert p'[1..] == p[1..] && ns[1..][p'[0]] == ns[p[0]];
      HitInRest(ns, f, code, inside, p');
      assert [p'[0] + 1] + p'[1..] == p;
      SelectedHit(ns[1..], f, code, inside, p');
    }
  }

  lemma PathBeforeShift(a: Path, b: Path)
    requires |a| > 0 && |b| > 0
    ensures PathBefore([a[0] + 1] + a[1..], [b[0] + 1] + b[1..]) <==> PathBefore(a, b)
  {
    var a', b' := [a[0] + 1] + a[1..], [b[0] + 1] + b[1..];
    assert a'[1..] == a[1..] && b'[1..] == b[1..];
  }

  /** A path the query selects with no selected path before it in document order. */
  ghost predicate FirstHit(ns: seq<Node>, f: FieldRef, code: string, inside: bool, p: Path) {
    Hit(ns, f, code, inside, p) && forall q :: Hit(ns, f, code, inside, q) ==> !PathBefore(q, p)
  }

  /** The first tree of the forest is itself selected: nothing comes before it. */
  lemma FirstAtHead(ns: seq<Node>, f: FieldRef, code: string, inside: bool)
    requires ns != [] && inside && IsSubfieldWithCode(ns[0], code)
    ensures FirstHit(ns, f, code, inside, [0])
  {
    forall q | Hit(ns, f, code, inside, q) ensures !PathBefore(q, [0]) {
    }
  }

  /** The first selected path inside the first tree, when that tree itself is not selected. */
  lemma FirstInFirstTree(ns: seq<Node>, f: FieldRef, code: string, inside: bool, p: Path)
    requires ns != [] && !(inside && IsSubfieldWithCode(ns[0], code))
    requires FirstHit(ns[0].children, f, code, inside || MatchesField(ns[0], f), p)
    ensures FirstHit(ns, f, code, inside, [0] + p)
  {
    var inner := inside || MatchesField(ns[0], f);
    HitUnderFirst(ns, f, code, inside, p);
    forall q | Hit(ns, f, code, inside, q) ensures !PathBefore(q, [0] + p) {
      if PathBefore(q, [0] + p) {
        assert q[0] == 0 && |q| > 1;
        assert [0] + q[1..] == q;
        HitUnderFirst(ns, f, code, inside, q[1..]);
      }
    }
  }

  /** The first selected path in a later tree, when the first tree holds none. */
  lemma FirstInRest(ns: seq<Node>, f: FieldRef, code: string, inside: bool, p: Path)
    requires ns != [] && !(inside && IsSubfieldWithCode(ns[0], code))
    requires Selected(ns[0].children, f, code, inside || MatchesField(ns[0], f)) == []
    requires FirstHit(ns[1..], f, code, inside, p)
    ensures FirstHit(ns, f, code, inside, [p[0] + 1] + p[1..])
  {
    var inner := inside || MatchesField(ns[0], f);
    var p1 := [p[0] + 1] + p[1..];
    HitInRest(ns, f, code, inside, p);
    forall q | Hit(ns, f, code, inside, q) ensures !PathBefore(q, p1) {
      if q[0] == 0 {
        if |q| > 1 {
          assert [0] + q[1..] == q;
          HitUnderFirst(ns, f, code, inside, q[1..]);
          SelectedHit(ns[0].children, f, code, inner, q[1..]);
        }
      } else {
        var q' := [q[0] - 1] + q[1..];
        assert q'[1..] == q[1..] && ns[1..][q'[0]] == ns[q[0]];
        assert [q'[0] + 1] + q'[1..] == q;
        PathBeforeShift(q', p);
        HitInRest(ns, f, code, inside, q');
      }
    }
  }

  /** The first node the query returns is the one the first selected path names. */
  lemma {:induction false} FirstSelected(ns: seq<Node>, f: FieldRef, code: string, inside: bool) returns (p: Path)
    requires Selected(ns, f, code, inside) != []
    ensures FirstHit(ns, f, code, inside, p)
    ensures NodeAt(ns, p) == Selected(ns, f, code, inside)[0]
    decreases ns
  {
    var inner := inside || MatchesField(ns[0], f);
    var head := if inside && IsSubfieldWithCode(ns[0], code) then [ns[0]] else [];
    var kids, rest := Selected(ns[0].children, f, code, inner), Selected(ns[1..], f, code, inside);
    assert Selected(ns, f, code, inside) == head + kids + rest;
    if head != [] {
      FirstAtHead(ns, f, code, inside);
      p := [0];
    } else if kids != [] {
      var p' := FirstSelected(ns[0].children, f, code, inner);
      FirstInFirstTree(ns, f, code, inside, p');
      HitUnderFirst(ns, f, code, inside, p');
      p := [0] + p';
    } else {
      var p' := FirstSelected(ns[1..], f, code, inside);
      FirstInRest(ns, f, code, inside, p');
      HitInRest(ns, f, code, inside, p');
      p := [p'[0] + 1] + p'[1..];
    }
  }

  /**
   * `contains` holds exactly when the query selects something and the
   * subfield that comes first in document order has text `ref_sf["value"]`.
   */
  lemma ContainsIff(root: Node, f: FieldRef, s: SubfieldRef)
    ensures Contains(root, f, s) <==>
      exists p :: FirstHit(root.children, f, s.code, false, p) && NodeAt(root.children, p).text == Some(s.value)
  {
    var ns := root.children;
    if Selected(ns, f, s.code, false) != [] {
      var p0 := FirstSelected(ns, f, s.code, false);
      forall p | FirstHit(ns, f, s.code, false, p) ensures p == p0 {
        if p != p0 {
          PathBeforeTotal(p, p0);
        }
      }
    } else {
      forall p | Hit(ns, f, s.code, false, p) ensures false {
        SelectedHit(ns, f, s.code, false, p);
      }
    }
  }

  /** The query over one matching datafield whose children are subfields with the code. */
  lemma SelectedOneDatafield(df: Node, f: FieldRef, code: string, a: string, b: string)
    requires MatchesField(df, f) && df.children == [SubfieldElement(code, a), SubfieldElement(code, b)]
    ensures Selected([df], f, code, false) == df.children
  {
    var first, second := SubfieldElement(code, a), SubfieldElement(code, b);
    assert [first, second][1..] == [second] && [second][1..] == [] && [df][1..] == [];
    assert Selected([second], f, code, true) == [second];
    assert Selected([first, second], f, code, true) == [first] + [second];
  }

  /** A datafield appended to the root brings its matching pairs along. */
  lemma PairInAppended(root: Node, df: Node, f: FieldRef, code: string, x: Node)
    requires MatchesField(df, f) && x in Preorder(df.children) && IsSubfieldWithCode(x, code)
    ensures HasMatchingPair(AppendChild(root, df).children, f, code)
  {
    var ns := AppendChild(root, df).children;
    PreorderAppend(root.children, [df]);
    assert [df][1..] == [];
    assert df in Preorder([df]);
    assert df in Preorder(ns);
  }

  /**
   * Only the first subfield counts: a matching datafield whose first subfield
   * with the code has another value makes `contains` false, even though its
   * second such subfield has the value.
   */
  lemma ContainsLooksAtFirstOnly(root: Node, f: FieldRef, s: SubfieldRef, other: string)
    requires Selected(root.children, f, s.code, false) == [] && other != s.value
    ensures var df := AppendChild(DatafieldElement(f.tag, f.ind1, f.ind2, s.code, other), SubfieldElement(s.code, s.value));
      && HasMatchingPair(AppendChild(root, df).children, f, s.code)
      && !Contains(AppendChild(root, df), f, s)
  {
    var first, second := SubfieldElement(s.code, other), SubfieldElement(s.code, s.value);
    var df := AppendChild(DatafieldElement(f.tag, f.ind1, f.ind2, s.code, other), second);
    assert df.children == [first, second];
    assert MatchesField(df, f);
    assert !Contains(AppendChild(root, df), f, s) by {
      SelectedAppend(root.children, [df], f, s.code, false);
      SelectedOneDatafield(df, f, s.code, other, s.value);
      assert AppendChild(root, df).children == root.children + [df];
    }
    assert second in Preorder(df.children) by {
      assert [first, second][1..] == [second];
    }
    PairInAppended(root, df, f, s.code, second);
  }

  // ---------------------------------------------------------------------------
  // emplace_unique_field

  /**
   * When no subfield with `code` exists, the datafield that gets the new
   * subfield holds no subfield with `code` either: the new one is the only one.
   */
  lemma UniqueFieldContains(root: Node, rest: seq<Node>, df: Node, f: FieldRef, s: SubfieldRef)
    requires !AnySubfield(rest, s.code) && !AnySubfield(df.children, s.code)
    requires MatchesField(df, f)
    ensures Contains(root.(children := rest + [AppendChild(df, SubfieldElement(s.code, s.value))]), f, s)
  {
    UniqueFieldSelected(rest, df, f, s);
  }

  /** The query over the forest with the extended datafield last finds the new subfield alone. */
  lemma UniqueFieldSelected(rest: seq<Node>, df: Node, f: FieldRef, s: SubfieldRef)
    requires !AnySubfield(rest, s.code) && !AnySubfield(df.children, s.code)
    requires MatchesField(df, f)
    ensures Selected(rest + [AppendChild(df, SubfieldElement(s.code, s.value))], f, s.code, false)
      == [SubfieldElement(s.code, s.value)]
  {
    var sub := SubfieldElement(s.code, s.value);
    var df' := AppendChild(df, sub);
    assert Selected(df'.children, f, s.code, true) == [sub] by {
      SelectedAppend(df.children, [sub], f, s.code, true);
      SelectedNeedsSubfield(df.children, f, s.code, true);
      assert [sub][1..] == [];
    }
    assert Selected([df'], f, s.code, false) == [sub] by {
      assert [df'][1..] == [];
    }
    SelectedAppend(rest, [df'], f, s.code, false);
    SelectedNeedsSubfield(rest, f, s.code, false);
  }

  /** Without a subfield with `code` in the forest, the query finds nothing. */
  lemma {:induction false} SelectedNeedsSubfield(ns: seq<Node>, f: FieldRef, code: string, inside: bool)
    requires !AnySubfield(ns, code)
    ensures Selected(ns, f, code, inside) == []
    decreases ns
  {
    if ns != [] {
      SelectedNeedsSubfield(ns[0].children, f, code, inside || MatchesField(ns[0], f));
      SelectedNeedsSubfield(ns[1..], f, code, inside);
    }
  }

  /** Detaching a node adds no subfield with `code`. */
  lemma RemoveAtNoSubfield(ns: seq<Node>, p: Path, code: string)
    requires ValidPath(ns, p) && !AnySubfield(ns, code)
    ensures !AnySubfield(RemoveAt(ns, p), code)
    ensures !AnySubfield(NodeAt(ns, p).children, code)
  {
    AnySubfieldIff(ns, code);
    AnySubfieldIff(RemoveAt(ns, p), code);
    AnySubfieldIff(NodeAt(ns, p).children, code);
    if x :| x in Preorder(RemoveAt(ns, p)) && IsSubfieldWithCode(x, code) {
      RemoveAtDescendants(ns, p, x);
    }
    if x :| x in Preorder(NodeAt(ns, p).children) && IsSubfieldWithCode(x, code) {
      NodeAtDescendants(ns, p, x);
    }
  }

  /** A subfield with `code` lies in a concatenation of forests exactly when it lies in one of them. */
  lemma {:induction false} AnySubfieldAppend(a: seq<Node>, b: seq<Node>, code: string)
    ensures AnySubfield(a + b, code) <==> AnySubfield(a, code) || AnySubfield(b, code)
    decreases a
  {
    if a == [] {
      assert a + b == b;
    } else {
      assert (a + b)[0] == a[0] && (a + b)[1..] == a[1..] + b;
      AnySubfieldAppend(a[1..], b, code);
    }
  }
}
