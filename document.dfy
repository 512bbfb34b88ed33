/**
 * The element trees that `Marc21Metadata` builds: the initial record, the
 * elements its `emplace_*` methods create, and the leader rewrite.
 */
module Document {
  import opened Wrappers
  import opened Xml

  const DefaultLeader := "00000nam a2200000zca4500"
  const Marc21Namespace := "http://www.loc.gov/MARC21/slim"

  /**
   * `<record xmlns=... type="Bibliographic"><leader>00000nam a2200000zca4500</leader></record>`.
   * `xmlns` is passed as an ordinary attribute, so the elements have no namespace.
   */
  function NewRecordTree(): (t: Node)
    ensures t.tag == "record" && t.text == None
    ensures t.attrs == map["xmlns" := Marc21Namespace, "type" := "Bibliographic"]
    ensures |t.children| == 1
    ensures t.children[0] == Node("leader", map[], Some(DefaultLeader), [])
  {
    var leader := Element("leader", map[]).(text := Some(DefaultLeader));
    AppendChild(Element("record", map["xmlns" := Marc21Namespace, "type" := "Bibliographic"]), leader)
  }

  /** `SubElement(root, "controlfield", tag=tag)` with text `value`. */
  function ControlfieldElement(tag: string, value: string): (c: Node)
    ensures c.tag == "controlfield" && c.attrs == map["tag" := tag]
    ensures c.text == Some(value) && c.children == []
  {
    Element("controlfield", map["tag" := tag]).(text := Some(value))
  }

  /** `SubElement(datafield, "subfield", code=code)` with text `value`. */
  function SubfieldElement(code: string, value: string): (sf: Node)
    ensures sf.tag == "subfield" && sf.attrs == map["code" := code]
    ensures sf.text == Some(value) && sf.children == []
  {
    Element("subfield", map["code" := code]).(text := Some(value))
  }

  /** A datafield with the given attributes and one subfield holding `value` under `code`. */
  function DatafieldElement(tag: string, ind1: string, ind2: string, code: string, value: string): (df: Node)
    ensures df.tag == "datafield" && df.text == None
    ensures df.attrs == map["tag" := tag, "ind1" := ind1, "ind2" := ind2]
    ensures df.children == [SubfieldElement(code, value)]
  {
    AppendChild(Element("datafield", map["tag" := tag, "ind1" := ind1, "ind2" := ind2]), SubfieldElement(code, value))
  }

  /** `n` with the text of itself and of every descendant tagged `leader` set to `text`. */
  function WithLeaderText(n: Node, text: Option<string>): (r: Node)
    ensures r.tag == n.tag && r.attrs == n.attrs && |r.children| == |n.children|
    ensures r.text == if n.tag == "leader" then text else n.text
  {
    n.(text := if n.tag == "leader" then text else n.text,
       children := seq(|n.children|, i requires 0 <= i < |n.children| => WithLeaderText(n.children[i], text)))
  }

  function WithLeaderTextAll(ns: seq<Node>, text: Option<string>): (rs: seq<Node>)
    ensures |rs| == |ns|
    ensures forall i :: 0 <= i < |ns| ==> rs[i] == WithLeaderText(ns[i], text)
  {
    seq(|ns|, i requires 0 <= i < |ns| => WithLeaderText(ns[i], text))
  }

  lemma WithLeaderTextAllAppend(a: seq<Node>, b: seq<Node>, text: Option<string>)
    ensures WithLeaderTextAll(a + b, text) == WithLeaderTextAll(a, text) + WithLeaderTextAll(b, text)
  {
    var l, r := WithLeaderTextAll(a, text), WithLeaderTextAll(b, text);
    forall i | |a| <= i < |a| + |b| ensures (l + r)[i] == WithLeaderText((a + b)[i], text) {
      assert (a + b)[i] == b[i - |a|];
    }
  }

  /** Rewriting the leaders visits the same nodes in the same order. */
  lemma {:induction false} WithLeaderTextPreorder(ns: seq<Node>, text: Option<string>)
    ensures Preorder(WithLeaderTextAll(ns, text)) == WithLeaderTextAll(Preorder(ns), text)
    decreases ns
  {
    if ns != [] {
      var rs := WithLeaderTextAll(ns, text);
      assert rs[1..] == WithLeaderTextAll(ns[1..], text);
      assert rs[0].children == WithLeaderTextAll(ns[0].children, text);
      WithLeaderTextPreorder(ns[0].children, text);
      WithLeaderTextPreorder(ns[1..], text);
      var kids, rest := Preorder(ns[0].children), Preorder(ns[1..]);
      assert Preorder(rs) == [rs[0]] + WithLeaderTextAll(kids, text) + WithLeaderTextAll(rest, text);
      assert Preorder(ns) == [ns[0]] + kids + rest;
      assert WithLeaderTextAll([ns[0]], text) == [rs[0]];
      WithLeaderTextAllAppend([ns[0]], kids, text);
      WithLeaderTextAllAppend([ns[0]] + kids, rest, text);
    }
  }

  /**
   * After the rewrite every node tagged `leader` has text `text`, and every
   * node keeps its place, its tag, its attributes, its number of children
   * and, unless it is a leader, its text.
   */
  lemma LeadersRewritten(ns: seq<Node>, text: Option<string>)
    ensures |Preorder(WithLeaderTextAll(ns, text))| == |Preorder(ns)|
    ensures forall i :: 0 <= i < |Preorder(ns)| ==>
      var x, y := Preorder(ns)[i], Preorder(WithLeaderTextAll(ns, text))[i];
      && y.tag == x.tag && y.attrs == x.attrs && |y.children| == |x.children|
      && y.text == (if x.tag == "leader" then text else x.text)
  {
    WithLeaderTextPreorder(ns, text);
  }

  /** Rewriting the leaders twice is rewriting them once, with the last text. */
  lemma {:induction false} WithLeaderTextTwice(n: Node, a: Option<string>, b: Option<string>)
    ensures WithLeaderText(WithLeaderText(n, a), b) == WithLeaderText(n, b)
  {
    forall i | 0 <= i < |n.children| {
      WithLeaderTextTwice(n.children[i], a, b);
    }
  }
}
