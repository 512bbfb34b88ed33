/**
 * `Marc21Metadata`: a document that owns one element tree, edits it in place
 * with the `emplace_*` methods, answers `contains`, and derives its `json`
 * view from the tree.
 */
module Metadata {
  import opened Wrappers
  import opened Assoc
  import opened Xml
  import opened Document
  import opened XPath
  import opened Conversion
  import opened ConversionProps
  import opened PyValue
  import opened Emplace
  import Visitor

  /** The exceptions the setters raise. */
  datatype SetterError =
    | TypeError(message: string)
    | XmlSyntaxError

  const JsonTypeMessage := "json must be from type dict"
  const XmlTypeMessage := "xml must be from type str"

  class Marc21Metadata {
    /** `_xml`: the last string set or serialised. */
    var xml: string
    /** `_json`: the last view computed or dict set. */
    var json: PyObject
    /** `_etree`: the record element. */
    var etree: Node

    /** A record element with the MARC21 namespace attribute, `type="Bibliographic"` and a default leader. */
    constructor ()
      ensures xml == "" && json == PyDict([]) && etree == NewRecordTree()
    {
      xml := "";
      json := PyDict([]);
      var record := Element("record", map["xmlns" := Marc21Namespace, "type" := "Bibliographic"]);
      var leader := Element("leader", map[]).(text := Some(DefaultLeader));
      etree := AppendChild(record, leader);
    }

    /** The `json` getter: `{"metadata": mij}` of the tree, also kept in `_json`; a conversion error propagates. */
    method GetJson() returns (r: Result<PyObject, Error>)
      modifies this
      ensures r == match Convert(old(etree)) case Failure(e) => Failure(e) case Success(m) => Success(JsonView(m))
      ensures json == if r.Success? then r.value else old(json)
      ensures etree == old(etree) && xml == old(xml)
    {
      var converted := Visitor.ConvertMarc21XmlToJson(etree);
      match converted
      case Failure(e) =>
        r := Failure(e);
      case Success(m) =>
        json := JsonView(m);
        r := Success(json);
    }

    /** The `json` setter: any dict is kept as it is; anything else is a `TypeError`. */
    method SetJson(value: PyObject) returns (err: Option<SetterError>)
      modifies this
      ensures err.None? <==> value.PyDict?
      ensures err.Some? ==> err.value == TypeError(JsonTypeMessage)
      ensures json == if value.PyDict? then value else old(json)
      ensures etree == old(etree) && xml == old(xml)
    {
      if !value.PyDict? {
        return Some(TypeError(JsonTypeMessage));
      }
      json := value;
      err := None;
    }

    /** The `xml` getter: the tree serialised by `serialize`, also kept in `_xml`. */
    method GetXml(serialize: Node -> string) returns (s: string)
      modifies this
      ensures xml == serialize(etree) && s == xml
      ensures etree == old(etree) && json == old(json)
    {
      xml := serialize(etree);
      s := xml;
    }

    /**
     * The `xml` setter: a string is parsed by `parse` into the new tree and
     * kept; a non-string is a `TypeError`, and a string that does not parse
     * leaves the document as it was.
     */
    method SetXml(value: PyObject, parse: string -> Option<Node>) returns (err: Option<SetterError>)
      modifies this
      ensures !value.PyStr? ==> err == Some(TypeError(XmlTypeMessage))
      ensures value.PyStr? && parse(value.s).None? ==> err == Some(XmlSyntaxError)
      ensures err.Some? ==> etree == old(etree) && xml == old(xml)
      ensures err.None? <==> value.PyStr? && parse(value.s).Some?
      ensures err.None? ==> etree == parse(value.s).value && xml == value.s
      ensures json == old(json)
    {
      if !value.PyStr? {
        return Some(TypeError(XmlTypeMessage));
      }
      var tree := parse(value.s);
      if tree.None? {
        return Some(XmlSyntaxError);
      }
      etree := tree.value;
      xml := value.s;
      err := None;
    }

    /** `load`: the given tree becomes the document's tree. */
    method Load(tree: Node)
      modifies this
      ensures etree == tree && xml == old(xml) && json == old(json)
    {
      etree := tree;
    }

    /**
     * `contains(ref_df, ref_sf)`: true exactly when the subfield with the
     * code below a matching datafield that comes first in document order has
     * the value; false when there is none.
     */
    method Contains(refDf: FieldRef, refSf: SubfieldRef) returns (b: bool)
      ensures b == XPath.Contains(etree, refDf, refSf)
      ensures b <==> exists p ::
        FirstHit(etree.children, refDf, refSf.code, false, p) && NodeAt(etree.children, p).text == Some(refSf.value)
      ensures b ==> exists d, x ::
        && d in Preorder(etree.children) && MatchesField(d, refDf)
        && x in Preorder(d.children) && IsSubfieldWithCode(x, refSf.code) && x.text == Some(refSf.value)
      ensures !HasMatchingPair(etree.children, refDf, refSf.code) ==> !b
    {
      var element := Selected(etree.children, refDf, refSf.code, false);
      b := |element| > 0 && element[0].text == Some(refSf.value);
      ContainsMeansPair(etree, refDf, refSf);
      ContainsIff(etree, refDf, refSf);
    }

    /**
     * `emplace_leader(value)`: every element named `leader`, the root
     * included, gets the text `value`; the children are rewritten one by one.
     */
    method EmplaceLeader(value: string)
      modifies this
      ensures etree == WithLeaderText(old(etree), Some(value))
      ensures xml == old(xml) && json == old(json)
    {
      var children := etree.children;
      var done: seq<Node> := [];
      var i := 0;
      while i < |children|
        invariant 0 <= i <= |children|
        invariant done == WithLeaderTextAll(children[..i], Some(value))
      {
        assert children[..i + 1] == children[..i] + [children[i]];
        done := done + [WithLeaderText(children[i], Some(value))];
        i := i + 1;
      }
      assert children[..i] == children;
      etree := etree.(text := if etree.tag == "leader" then Some(value) else etree.text, children := done);
    }

    /** `emplace_controlfield(tag, value)`: a new controlfield is always appended, even for a tag already present. */
    method EmplaceControlfield(tag: string, value: string)
      modifies this
      ensures etree == AppendChild(old(etree), ControlfieldElement(tag, value))
      ensures xml == old(xml) && json == old(json)
    {
      var controlfield := Element("controlfield", map["tag" := tag]).(text := Some(value));
      etree := AppendChild(etree, controlfield);
    }

    /** `emplace_field(tag, ind1, ind2, code, value)`: a new datafield with one subfield is appended. */
    method EmplaceField(tag: string, ind1: string, ind2: string, code: string, value: string)
      modifies this
      ensures etree == AppendChild(old(etree), DatafieldElement(tag, ind1, ind2, code, value))
      ensures xml == old(xml) && json == old(json)
    {
      var datafield := Element("datafield", map["tag" := tag, "ind1" := ind1, "ind2" := ind2]);
      var subfield := Element("subfield", map["code" := code]).(text := Some(value));
      datafield := AppendChild(datafield, subfield);
      etree := AppendChild(etree, datafield);
    }

    /**
     * `emplace_unique_field(tag, ind1, ind2, code, value)`: look up the first
     * matching datafield (or make one), then, only if no subfield with `code`
     * exists anywhere, give it the subfield and (re-)append it to the root,
     * which moves an existing datafield to the end.
     */
    method EmplaceUniqueField(tag: string, ind1: string, ind2: string, code: string, value: string)
      modifies this
      ensures etree == EmplacedUnique(old(etree), FieldRef(tag, ind1, ind2), SubfieldRef(code, value))
      ensures xml == old(xml) && json == old(json)
    {
      var datafield: Node;
      var others: seq<Node>;
      match FirstDatafield(etree.children, FieldRef(tag, ind1, ind2)) {
        case None =>
          datafield := Element("datafield", map["tag" := tag, "ind1" := ind1, "ind2" := ind2]);
          others := etree.children;
        case Some(p) =>
          datafield := NodeAt(etree.children, p);
          others := RemoveAt(etree.children, p);
      }
      if !AnySubfield(etree.children, code) {
        var subfield := Element("subfield", map["code" := code]).(text := Some(value));
        assert subfield == SubfieldElement(code, value);
        datafield := AppendChild(datafield, subfield);
        etree := etree.(children := others + [datafield]);
      }
    }
  }

  // ---------------------------------------------------------------------------
  // A session with a new document

  /** A new document's `json`: `{"metadata": {"leader": "00000nam a2200000zca4500", "fields": {}}}`. */
  lemma NewDocumentJson()
    ensures Convert(NewRecordTree()) == Success(Record(Some(DefaultLeader), FieldDict([])))
    ensures JsonView(Record(Some(DefaultLeader), FieldDict([])))
         == PyDict([(PyStr("metadata"), PyDict([(PyStr("leader"), PyStr(DefaultLeader)), (PyStr("fields"), PyDict([]))]))])
  {
    NewRecordConverts();
    assert MapSeq(FieldItemToPy, []) == [];
  }

  /** The tree after `emplace_controlfield("001", "12345")` on a new document. */
  function ControlTree(): Node {
    AppendChild(NewRecordTree(), ControlfieldElement("001", "12345"))
  }

  /** The tree after a further `emplace_field("245", "1", "0", "a", "Title")`. */
  function TitleTree(): Node {
    AppendChild(ControlTree(), DatafieldElement("245", "1", "0", "a", "Title"))
  }

  /** The record's entry for the title datafield. */
  const TitleEntry: Entry<SubfieldDict> := Entry("1", "0", [(Some("a"), [Some("Title")])])

  /** `fields["001"]` is `"12345"` once the controlfield is in. */
  lemma ControlTreeConverts()
    ensures Convert(ControlTree()) == Success(Record(Some(DefaultLeader), FieldDict([(Some("001"), ControlText(Some("12345")))])))
  {
    NewRecordConverts();
    ConvertAppendControlfield(NewRecordTree(), ControlfieldElement("001", "12345"));
    var empty: Dict<Key, FieldValue<SubfieldDict>> := [];
    assert Set(empty, Some("001"), ControlText(Some("12345"))) == [(Some("001"), ControlText(Some("12345")))];
  }

  /** The list under a new tag "245", after the controlfield "001". */
  lemma TitleAfterControl(m: Mij, e: Entry<SubfieldDict>)
    requires m == Record(Some(DefaultLeader), FieldDict([(Some("001"), ControlText(Some("12345")))]))
    ensures AfterDatafield(Success(m), Some("245"), e)
         == Success(Record(Some(DefaultLeader), FieldDict([(Some("001"), ControlText(Some("12345"))), (Some("245"), Entries([e]))])))
  {
    var d := m.fields.dict;
    assert d[0].0 != Some("245") && d[1..] == [];
    assert Get(d, Some("245")).None?;
    assert Set(d[1..], Some("245"), Entries([e])) == [(Some("245"), Entries([e]))];
    assert Set(d, Some("245"), Entries([e])) == [d[0]] + [(Some("245"), Entries([e]))];
    assert [d[0]] + [(Some("245"), Entries([e]))] == [(Some("001"), ControlText(Some("12345"))), (Some("245"), Entries([e]))];
  }

  /** Then `fields["245"]` is `[{"ind1": "1", "ind2": "0", "subfields": {"a": ["Title"]}}]`. */
  lemma TitleTreeConverts()
    ensures Convert(TitleTree()) == Success(Record(Some(DefaultLeader),
      FieldDict([(Some("001"), ControlText(Some("12345"))), (Some("245"), Entries([TitleEntry]))])))
  {
    ControlTreeConverts();
    EmplacedFieldAppendsEntry(ControlTree(), "245", "1", "0", "a", "Title");
    assert Underscored("1") == "1" && Underscored("0") == "0";
    TitleAfterControl(Convert(ControlTree()).value, TitleEntry);
  }

  /** After the title datafield, `contains` finds it with value "Title" and not with value "Y". */
  lemma SessionContains()
    ensures XPath.Contains(TitleTree(), FieldRef("245", "1", "0"), SubfieldRef("a", "Title"))
    ensures !XPath.Contains(TitleTree(), FieldRef("245", "1", "0"), SubfieldRef("a", "Y"))
  {
    var f := FieldRef("245", "1", "0");
    var c := ControlTree();
    assert !AnySubfield(c.children, "a") by {
      assert |c.children| == 2 && c.children[0].children == [] && c.children[1].children == [];
      assert c.children[1..][1..] == [];
      assert !IsSubfieldWithCode(c.children[0], "a") && !IsSubfieldWithCode(c.children[1], "a");
    }
    SelectedNeedsSubfield(c.children, f, "a", false);
    ContainsAfterEmplaceField(c, f, SubfieldRef("a", "Title"));
    SelectedAppend(c.children, [DatafieldElement("245", "1", "0", "a", "Title")], f, "a", false);
    var found := Selected(TitleTree().children, f, "a", false);
    assert found != [] && found[0].text == Some("Title");
  }

  /**
   * The session on the document object: a new document, a controlfield, a
   * datafield, then the `json` view and two `contains` queries.
   */
  method Session() returns (initial: Result<PyObject, Error>, afterControl: Result<PyObject, Error>,
                            afterTitle: Result<PyObject, Error>, hasTitle: bool, hasY: bool)
    ensures initial == Success(JsonView(Record(Some(DefaultLeader), FieldDict([]))))
    ensures afterControl == Success(JsonView(Record(Some(DefaultLeader), FieldDict([(Some("001"), ControlText(Some("12345")))]))))
    ensures afterTitle == Success(JsonView(Record(Some(DefaultLeader),
      FieldDict([(Some("001"), ControlText(Some("12345"))), (Some("245"), Entries([TitleEntry]))]))))
    ensures hasTitle && !hasY
  {
    var doc := new Marc21Metadata();
    NewDocumentJson();
    ControlTreeConverts();
    TitleTreeConverts();
    SessionContains();
    initial := doc.GetJson();
    doc.EmplaceControlfield("001", "12345");
    afterControl := doc.GetJson();
    doc.EmplaceField("245", "1", "0", "a", "Title");
    afterTitle := doc.GetJson();
    hasTitle := doc.Contains(FieldRef("245", "1", "0"), SubfieldRef("a", "Title"));
    hasY := doc.Contains(FieldRef("245", "1", "0"), SubfieldRef("a", "Y"));
  }
}
