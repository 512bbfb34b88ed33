/**
 * Element trees in the shape lxml gives them: a tag (its local name), the
 * attributes, the text before the first child (absent or a string), and the
 * ordered children. Tail text is not part of the model.
 */
module Xml {
  import opened Wrappers

  datatype Node = Node(tag: string, attrs: map<string, string>, text: Option<string>, children: seq<Node>)

  /** A path names a node below a list of siblings: an index at each level. */
  type Path = seq<nat>

  /** `node.get(name)`: the attribute's value, or None when it is absent. */
  function Attr(n: Node, name: string): (r: Option<string>)
    ensures r.Some? <==> name in n.attrs
    ensures r.Some? ==> r.value == n.attrs[name]
  {
    if name in n.attrs then Some(n.attrs[name]) else None
  }

  /** `n.get(name) == value`, as the XPath test `@name='value'` reads it. */
  predicate HasAttr(n: Node, name: string, value: string) {
    name in n.attrs && n.attrs[name] == value
  }

  /** `etree.Element(tag, **attrs)`: a new element with no text and no children. */
  function Element(tag: string, attrs: map<string, string>): Node {
    Node(tag, attrs, None, [])
  }

  /** `parent.append(child)` for a child that is not yet in a tree. */
  function AppendChild(parent: Node, child: Node): (r: Node)
    ensures r.tag == parent.tag && r.attrs == parent.attrs && r.text == parent.text
    ensures r.children == parent.children + [child]
  {
    parent.(children := parent.children + [child])
  }

  /** The nodes of the forest `ns` in document order (each node before its descendants). */
  function Preorder(ns: seq<Node>): seq<Node>
    decreases ns
  {
    if ns == [] then [] else [ns[0]] + Preorder(ns[0].children) + Preorder(ns[1..])
  }

  /** Document order of two forests side by side is the first one's followed by the second's. */
  lemma {:induction false} PreorderAppend(a: seq<Node>, b: seq<Node>)
    ensures Preorder(a + b) == Preorder(a) + Preorder(b)
    decreases a
  {
    if a == [] {
      assert a + b == b;
    } else {
      assert (a + b)[0] == a[0];
      assert (a + b)[1..] == a[1..] + b;
      PreorderAppend(a[1..], b);
    }
  }

  predicate ValidPath(ns: seq<Node>, p: Path)
    decreases p
  {
    |p| > 0 && p[0] < |ns| && (|p| == 1 || ValidPath(ns[p[0]].children, p[1..]))
  }

  /** The node that `p` names. */
  function NodeAt(ns: seq<Node>, p: Path): Node
    requires ValidPath(ns, p)
    decreases p
  {
    if |p| == 1 then ns[p[0]] else NodeAt(ns[p[0]].children, p[1..])
  }

  /** `ns` after the node that `p` names has been detached from its parent. */
  function RemoveAt(ns: seq<Node>, p: Path): (r: seq<Node>)
    requires ValidPath(ns, p)
    ensures |r| == if |p| == 1 then |ns| - 1 else |ns|
    decreases p
  {
    var i := p[0];
    if |p| == 1 then ns[..i] + ns[i + 1..]
    else ns[..i] + [ns[i].(children := RemoveAt(ns[i].children, p[1..]))] + ns[i + 1..]
  }

  /**
   * Document order on paths: `q` names a node that comes before the node `p`
   * names, because it is an ancestor of it or lies in an earlier sibling's subtree.
   */
  predicate PathBefore(q: Path, p: Path)
    decreases p
  {
    && |q| > 0 && |p| > 0
    && (q[0] < p[0] || (q[0] == p[0] && ((|q| == 1 && |p| > 1) || PathBefore(q[1..], p[1..]))))
  }

  /** Of two different paths, one comes first in document order. */
  lemma {:induction false} PathBeforeTotal(p: Path, q: Path)
    requires |p| > 0 && |q| > 0 && p != q
    ensures PathBefore(p, q) || PathBefore(q, p)
    decreases p
  {
    if p[0] == q[0] && |p| > 1 && |q| > 1 {
      assert p == [p[0]] + p[1..] && q == [q[0]] + q[1..];
      PathBeforeTotal(p[1..], q[1..]);
    }
  }

  /** The nodes that come before the node named by `p` in document order. */
  function Before(ns: seq<Node>, p: Path): seq<Node>
    requires ValidPath(ns, p)
    decreases p
  {
    var i := p[0];
    if |p| == 1 then Preorder(ns[..i])
    else Preorder(ns[..i]) + [ns[i]] + Before(ns[i].children, p[1..])
  }

  /** Document order of a forest around its `i`-th tree. */
  lemma {:induction false} PreorderSplit(ns: seq<Node>, i: nat)
    requires i < |ns|
    ensures Preorder(ns) == Preorder(ns[..i]) + [ns[i]] + Preorder(ns[i].children) + Preorder(ns[i + 1..])
  {
    var front, back := ns[..i], ns[i..];
    assert ns == front + back;
    PreorderAppend(front, back);
    assert back[0] == ns[i] && back[1..] == ns[i + 1..];
    var a, b, c, d := Preorder(front), [ns[i]], Preorder(ns[i].children), Preorder(ns[i + 1..]);
    assert Preorder(back) == b + c + d;
    assert a + (b + c + d) == a + b + c + d;
  }

  /** The nodes that come after the node named by `p` and its descendants, in document order. */
  function After(ns: seq<Node>, p: Path): seq<Node>
    requires ValidPath(ns, p)
    decreases p
  {
    var i := p[0];
    if |p| == 1 then Preorder(ns[i].children) + Preorder(ns[i + 1..])
    else After(ns[i].children, p[1..]) + Preorder(ns[i + 1..])
  }

  lemma Regroup<T>(a: seq<T>, b: seq<T>, c: seq<T>, x: seq<T>, d: seq<T>, e: seq<T>)
    ensures a + b + (c + x + d) + e == (a + b + c) + x + (d + e)
  {
  }

  /** Document order lists exactly `Before(ns, p)`, then the node `p` names, then `After(ns, p)`. */
  lemma {:induction false} BeforeIsPrefix(ns: seq<Node>, p: Path)
    requires ValidPath(ns, p)
    ensures Preorder(ns) == Before(ns, p) + [NodeAt(ns, p)] + After(ns, p)
    decreases p
  {
    var i := p[0];
    PreorderSplit(ns, i);
    var pre, kids, post := Preorder(ns[..i]), Preorder(ns[i].children), Preorder(ns[i + 1..]);
    if |p| == 1 {
      assert Preorder(ns) == pre + [ns[i]] + (kids + post);
    } else {
      var q := p[1..];
      BeforeIsPrefix(ns[i].children, q);
      var bef, x, aft := Before(ns[i].children, q), NodeAt(ns[i].children, q), After(ns[i].children, q);
      assert Before(ns, p) == pre + [ns[i]] + bef;
      assert After(ns, p) == aft + post;
      assert NodeAt(ns, p) == x;
      Regroup(pre, [ns[i]], bef, [x], aft, post);
    }
  }

  /** Every node below the one that `p` names is a node of the forest. */
  lemma {:induction false} NodeAtDescendants(ns: seq<Node>, p: Path, x: Node)
    requires ValidPath(ns, p)
    requires x in Preorder(NodeAt(ns, p).children)
    ensures x in Preorder(ns)
    decreases p
  {
    var i := p[0];
    PreorderSplit(ns, i);
    if |p| > 1 {
      NodeAtDescendants(ns[i].children, p[1..], x);
    }
  }

  /** The same element apart from its children. */
  predicate SameElement(x: Node, y: Node) {
    x.tag == y.tag && x.attrs == y.attrs && x.text == y.text
  }

  /**
   * Detaching a node creates no element: every node left is one of the
   * forest's, with its children possibly thinned out.
   */
  lemma {:induction false} RemoveAtDescendants(ns: seq<Node>, p: Path, x: Node)
    requires ValidPath(ns, p)
    requires x in Preorder(RemoveAt(ns, p))
    ensures exists y :: y in Preorder(ns) && SameElement(x, y)
    decreases p
  {
    var i := p[0];
    assert ns == ns[..i] + [ns[i]] + ns[i + 1..];
    PreorderAppend(ns[..i] + [ns[i]], ns[i + 1..]);
    PreorderAppend(ns[..i], [ns[i]]);
    if |p| == 1 {
      PreorderAppend(ns[..i], ns[i + 1..]);
      assert x in Preorder(ns) && SameElement(x, x);
    } else {
      var m := ns[i].(children := RemoveAt(ns[i].children, p[1..]));
      PreorderAppend(ns[..i] + [m], ns[i + 1..]);
      PreorderAppend(ns[..i], [m]);
      assert Preorder([m]) == [m] + Preorder(m.children) + Preorder([]);
      if x in Preorder(m.children) {
        RemoveAtDescendants(ns[i].children, p[1..], x);
        var y :| y in Preorder(ns[i].children) && SameElement(x, y);
        assert y in Preorder([ns[i]]);
      } else if x == m {
        assert ns[i] in Preorder([ns[i]]) && SameElement(x, ns[i]);
      } else {
        assert x in Preorder(ns);
      }
    }
  }
}
