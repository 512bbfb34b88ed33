/**
 * `XmlToJsonVisitor` as the source has it: an object whose methods update
 * its `record` and `subfields` attributes while walking the tree. Each
 * method is proved to do what the corresponding function of module Conversion
 * says; on an error the visitor's state is left unspecified, as the
 * exception discards the visitor.
 */
module Visitor {
  import opened Wrappers
  import opened Assoc
  import opened Xml
  import opened Conversion

  /** A method's error result and new state agree with a step's outcome. */
  predicate Agrees(outcome: Result<State, Error>, err: Option<Error>, now: State) {
    match outcome
    case Success(st) => err == None && now == st
    case Failure(e) => err == Some(e)
  }

  class XmlToJsonVisitor {
    var record: Record<nat>
    /** The subfields dict the visitor appends to, as a reference into `store`; None until set. */
    var subfields: Option<nat>
    /** The subfields dicts this visitor has created, in creation order. */
    var store: seq<SubfieldDict>

    function Snapshot(): State
      reads this
    {
      State(record, subfields, store)
    }

    constructor ()
      ensures Snapshot() == InitialState
    {
      record := Record(Some(""), FieldDict([]));
      subfields := None;
      store := [];
    }

    method AppendString(tag: Key, value: Text) returns (err: Option<Error>)
      requires Valid(Snapshot())
      modifies this
      ensures Agrees(Conversion.AppendString(old(Snapshot()), tag, value), err, Snapshot())
    {
      match record.fields
      case FieldList =>
        err := Some(FieldsNotADict(tag));
      case FieldDict(d) =>
        record := record.(fields := FieldDict(Set(d, tag, ControlText(value))));
        err := None;
    }

    method Append(tag: Key, field: Entry<nat>) returns (err: Option<Error>)
      requires Valid(Snapshot()) && field.subfields < |store|
      modifies this
      ensures Agrees(Conversion.Append(old(Snapshot()), tag, field), err, Snapshot())
    {
      if record.fields.FieldList? {
        // `tag not in []` holds, and assigning into the list raises
        return Some(FieldsNotADict(tag));
      }
      if Get(record.fields.dict, tag).None? {
        record := record.(fields := FieldDict(Set(record.fields.dict, tag, Entries([]))));
      }
      var d := record.fields.dict;
      match Get(d, tag).value
      case ControlText(_) =>
        err := Some(NotAList(tag));
      case Entries(es) =>
        record := record.(fields := FieldDict(Set(d, tag, Entries(es + [field]))));
        err := None;
    }

    method GetJsonRecord() returns (r: Mij)
      requires Valid(Snapshot())
      ensures r == Resolve(Snapshot())
    {
      r := Resolve(Snapshot());
    }

    method VisitRecord(node: Node) returns (err: Option<Error>)
      requires Valid(Snapshot())
      modifies this
      ensures Agrees(Conversion.VisitRecord(old(Snapshot()), node), err, Snapshot())
      decreases node, 1, 0
    {
      record := Record(Some(""), FieldList);
      err := Visit(node);
    }

    method VisitLeader(node: Node)
      modifies this
      ensures Snapshot() == Conversion.VisitLeader(old(Snapshot()), node)
    {
      record := record.(leader := node.text);
    }

    method VisitControlfield(node: Node) returns (err: Option<Error>)
      requires Valid(Snapshot())
      modifies this
      ensures Agrees(Conversion.VisitControlfield(old(Snapshot()), node), err, Snapshot())
    {
      var field := node.text;
      err := AppendString(Attr(node, "tag"), field);
    }

    method VisitDatafield(node: Node) returns (err: Option<Error>)
      requires Valid(Snapshot())
      modifies this
      ensures Agrees(Conversion.VisitDatafield(old(Snapshot()), node), err, Snapshot())
      decreases node, 1, 0
    {
      subfields := Some(|store|);
      store := store + [[]];
      err := Visit(node);
      if err.Some? {
        return;
      }
      var tag := Attr(node, "tag");
      var ind1 := Indicator(node, "ind1");
      var ind2 := Indicator(node, "ind2");
      var field := Entry(ind1, ind2, subfields.value);
      err := Append(tag, field);
    }

    method VisitSubfield(node: Node) returns (err: Option<Error>)
      requires Valid(Snapshot())
      modifies this
      ensures Agrees(Conversion.VisitSubfield(old(Snapshot()), node), err, Snapshot())
    {
      if subfields.None? {
        return Some(NoSubfieldAccumulator);
      }
      var ref := subfields.value;
      var code := Attr(node, "code");
      if Get(store[ref], code).None? {
        store := store[ref := Set(store[ref], code, [])];
      }
      store := store[ref := Set(store[ref], code, Get(store[ref], code).value + [node.text])];
      err := None;
    }

    /** `process`: the `visit_` method named after the element's local name, or the error. */
    method Process(node: Node) returns (err: Option<Error>)
      requires Valid(Snapshot())
      modifies this
      ensures Agrees(Conversion.Process(old(Snapshot()), node), err, Snapshot())
      decreases node, 2, 0
    {
      if node.tag == "record" {
        err := VisitRecord(node);
      } else if node.tag == "leader" {
        VisitLeader(node);
        err := None;
      } else if node.tag == "controlfield" {
        err := VisitControlfield(node);
      } else if node.tag == "datafield" {
        err := VisitDatafield(node);
      } else if node.tag == "subfield" {
        err := VisitSubfield(node);
      } else {
        err := Some(UnsupportedElement(node.tag));
      }
    }

    /** `visit`: process each child in turn; the first error ends the walk. */
    method Visit(node: Node) returns (err: Option<Error>)
      requires Valid(Snapshot())
      modifies this
      ensures Agrees(VisitChildren(old(Snapshot()), node, 0), err, Snapshot())
      decreases node, 0, 0
    {
      var i := 0;
      while i < |node.children|
        invariant 0 <= i <= |node.children|
        invariant Valid(Snapshot())
        invariant VisitChildren(old(Snapshot()), node, 0) == VisitChildren(Snapshot(), node, i)
      {
        err := Process(node.children[i]);
        if err.Some? {
          return;
        }
        i := i + 1;
      }
      err := None;
    }
  }

  /** `convert_marc21xml_to_json`: a fresh visitor visits the root's children. */
  method ConvertMarc21XmlToJson(root: Node) returns (r: Result<Mij, Error>)
    ensures r == Convert(root)
  {
    var visitor := new XmlToJsonVisitor();
    var err := visitor.Visit(root);
    if err.Some? {
      return Failure(err.value);
    }
    var m := visitor.GetJsonRecord();
    r := Success(m);
  }
}
