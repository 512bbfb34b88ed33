/**
 * The "mij" form of a MARC21 record and the conversion of an element tree
 * into it, stated as functions: each function is one step of the visitor
 * (`process`, `visit`, `visit_record`, ...) acting on the visitor's state.
 *
 * The state mirrors the Python objects. `record` is the dict under
 * construction; a datafield entry does not hold its subfields dict but a
 * reference to it: an index into `store`, the dicts created so far, in
 * creation order. `subfields` is the visitor attribute of that name, a
 * reference, absent until the first datafield is visited. A reference is
 * needed because the source keeps appending into the dict it last created,
 * even after that dict has been put into an entry.
 */
module Conversion {
  import opened Wrappers
  import opened Assoc
  import opened Xml

  /** A dict key read from an attribute (`node.get("tag")`, `node.get("code")`): None when absent. */
  type Key = Option<string>
  /** An element's text: None when the element has none. */
  type Text = Option<string>
  /** The subfields of one datafield: code to the texts, in document order. */
  type SubfieldDict = Dict<Key, seq<Text>>

  /** `{"ind1": ..., "ind2": ..., "subfields": ...}`. */
  datatype Entry<S> = Entry(ind1: string, ind2: string, subfields: S)
  /** What a tag maps to: a controlfield's text, or the list of datafield entries. */
  datatype FieldValue<S> = ControlText(text: Text) | Entries(entries: seq<Entry<S>>)
  /** `record["fields"]`: a dict, or the empty list that `visit_record` puts there. */
  datatype Fields<S> = FieldDict(dict: Dict<Key, FieldValue<S>>) | FieldList
  /** `{"leader": ..., "fields": ...}`. */
  datatype Record<S> = Record(leader: Text, fields: Fields<S>)

  /** The converted record, with the subfields dicts in place. */
  type Mij = Record<SubfieldDict>

  /** What makes a conversion raise. */
  datatype Error =
    | UnsupportedElement(localName: string)  // ValueError "NO visitor node"; namespace is None for these trees
    | FieldsNotADict(key: Key)               // TypeError: `record["fields"]` is a list after a nested record
    | NotAList(key: Key)                     // AttributeError: the tag holds a controlfield's text, not a list
    | NoSubfieldAccumulator                  // AttributeError: a subfield met before any datafield

  datatype State = State(record: Record<nat>, subfields: Option<nat>, store: seq<SubfieldDict>)

  /** A fresh visitor: `{"leader": "", "fields": {}}`, no subfields attribute. */
  const InitialState := State(Record(Some(""), FieldDict([])), None, [])

  const DefaultIndicator := "_"

  predicate ValueRefsBelow(v: FieldValue<nat>, n: nat) {
    v.Entries? ==> forall e :: e in v.entries ==> e.subfields < n
  }

  predicate RefsBelow(fields: Fields<nat>, n: nat) {
    fields.FieldDict? ==> forall e :: e in fields.dict ==> ValueRefsBelow(e.1, n)
  }

  /** Every reference in the state names a dict of the store. */
  predicate Valid(st: State) {
    && (st.subfields.Some? ==> st.subfields.value < |st.store|)
    && RefsBelow(st.record.fields, |st.store|)
  }

  /** A step only adds dicts, and once set the subfields attribute stays set. */
  predicate Grows(st: State, st': State) {
    && |st.store| <= |st'.store|
    && (st.subfields.Some? ==> st'.subfields.Some?)
  }

  /** `s.replace(" ", "_")`. */
  function Underscored(s: string): (r: string)
    ensures |r| == |s|
    ensures forall i :: 0 <= i < |s| ==> r[i] == (if s[i] == ' ' then '_' else s[i])
  {
    if s == [] then [] else [if s[0] == ' ' then '_' else s[0]] + Underscored(s[1..])
  }

  /** `node.get(name, "_").replace(" ", "_")`. */
  function Indicator(n: Node, name: string): (r: string)
    ensures name !in n.attrs ==> r == DefaultIndicator
    ensures name in n.attrs ==> r == Underscored(n.attrs[name])
  {
    Underscored(match Attr(n, name) case Some(v) => v case None => DefaultIndicator)
  }

  lemma SetKeepsRefsBelow(d: Dict<Key, FieldValue<nat>>, k: Key, v: FieldValue<nat>, n: nat)
    requires RefsBelow(FieldDict(d), n) && ValueRefsBelow(v, n)
    ensures RefsBelow(FieldDict(Set(d, k, v)), n)
  {
    SetMembers(d, k, v);
  }

  lemma RefsBelowGrow(fields: Fields<nat>, n: nat, m: nat)
    requires RefsBelow(fields, n) && n <= m
    ensures RefsBelow(fields, m)
  {
  }

  /** `append_string(tag, value)`: `record["fields"][tag] = value`. */
  function AppendString(st: State, tag: Key, value: Text): (r: Result<State, Error>)
    requires Valid(st)
    ensures r.Success? ==> Valid(r.value) && Grows(st, r.value) && r.value.store == st.store
    ensures r.Failure? <==> st.record.fields.FieldList?
  {
    match st.record.fields
    case FieldList => Failure(FieldsNotADict(tag))
    case FieldDict(d) =>
      SetKeepsRefsBelow(d, tag, ControlText(value), |st.store|);
      Success(st.(record := st.record.(fields := FieldDict(Set(d, tag, ControlText(value))))))
  }

  /**
   * `append(tag, field)`: put an empty list under a new tag, then append the
   * entry to the list under the tag.
   */
  function Append(st: State, tag: Key, field: Entry<nat>): (r: Result<State, Error>)
    requires Valid(st) && field.subfields < |st.store|
    ensures r.Success? ==> Valid(r.value) && Grows(st, r.value) && r.value.store == st.store
  {
    match st.record.fields
    case FieldList => Failure(FieldsNotADict(tag))
    case FieldDict(d) =>
      var d1 := if Get(d, tag).None? then Set(d, tag, Entries([])) else d;
      SetKeepsRefsBelow(d, tag, Entries([]), |st.store|);
      match Get(d1, tag).value
      case ControlText(_) => Failure(NotAList(tag))
      case Entries(es) =>
        GetIsMember(d1, tag);
        SetKeepsRefsBelow(d1, tag, Entries(es + [field]), |st.store|);
        Success(st.(record := st.record.(fields := FieldDict(Set(d1, tag, Entries(es + [field]))))))
  }

  /** `visit_leader`: the leader becomes the element's text. */
  function VisitLeader(st: State, node: Node): (r: State)
    ensures r.record.leader == node.text
    ensures r.record.fields == st.record.fields && r.subfields == st.subfields && r.store == st.store
  {
    st.(record := st.record.(leader := node.text))
  }

  /** `visit_controlfield`: the element's text goes under its `tag` attribute. */
  function VisitControlfield(st: State, node: Node): (r: Result<State, Error>)
    requires Valid(st)
    ensures r.Success? ==> Valid(r.value) && Grows(st, r.value)
    ensures r.Failure? <==> st.record.fields.FieldList?
    ensures r.Success? ==>
      && r.value.record.leader == st.record.leader && r.value.subfields == st.subfields && r.value.store == st.store
      && r.value.record.fields.FieldDict?
      && Get(r.value.record.fields.dict, Attr(node, "tag")) == Some(ControlText(node.text))
      && forall k :: k != Attr(node, "tag") ==> Get(r.value.record.fields.dict, k) == Get(st.record.fields.dict, k)
  {
    AppendString(st, Attr(node, "tag"), node.text)
  }

  /**
   * The dict step of `visit_subfield`: put an empty list under a new code,
   * then append the text to the list under the code.
   */
  function AddSubfieldText(d: SubfieldDict, code: Key, text: Text): (r: SubfieldDict)
    ensures Get(r, code) == Some((match Get(d, code) case Some(ts) => ts case None => []) + [text])
    ensures forall k :: k != code ==> Get(r, k) == Get(d, k)
  {
    var d1 := if Get(d, code).None? then Set(d, code, []) else d;
    Set(d1, code, Get(d1, code).value + [text])
  }

  /** `visit_subfield`: the element's text is appended under its `code` in the current subfields dict. */
  function VisitSubfield(st: State, node: Node): (r: Result<State, Error>)
    requires Valid(st)
    ensures r.Success? ==> Valid(r.value) && Grows(st, r.value) && |r.value.store| == |st.store|
    ensures r.Failure? <==> st.subfields.None?
    ensures r.Success? ==> r.value.record == st.record && r.value.subfields == st.subfields
    ensures r.Success? ==> forall i :: 0 <= i < |st.store| && i != st.subfields.value ==> r.value.store[i] == st.store[i]
    ensures r.Success? ==> var ref := st.subfields.value;
      r.value.store[ref] == AddSubfieldText(st.store[ref], Attr(node, "code"), node.text)
  {
    match st.subfields
    case None => Failure(NoSubfieldAccumulator)
    case Some(ref) => Success(st.(store := st.store[ref := AddSubfieldText(st.store[ref], Attr(node, "code"), node.text)]))
  }

  /** `process`: dispatch on the element's local name. */
  function Process(st: State, node: Node): (r: Result<State, Error>)
    requires Valid(st)
    ensures r.Success? ==> Valid(r.value) && Grows(st, r.value)
    decreases node, 2, 0
  {
    if node.tag == "record" then VisitRecord(st, node)
    else if node.tag == "leader" then Success(VisitLeader(st, node))
    else if node.tag == "controlfield" then VisitControlfield(st, node)
    else if node.tag == "datafield" then VisitDatafield(st, node)
    else if node.tag == "subfield" then VisitSubfield(st, node)
    else Failure(UnsupportedElement(node.tag))
  }

  /** `visit_record`: start again from `{"leader": "", "fields": []}`, then visit the children. */
  function VisitRecord(st: State, node: Node): (r: Result<State, Error>)
    requires Valid(st)
    ensures r.Success? ==> Valid(r.value) && Grows(st, r.value)
    decreases node, 1, 0
  {
    VisitChildren(st.(record := Record(Some(""), FieldList)), node, 0)
  }

  /**
   * `visit_datafield`: create a fresh subfields dict, visit the children, then
   * append an entry whose subfields are the dict the attribute names at that
   * point (a nested datafield may have replaced it).
   */
  function VisitDatafield(st: State, node: Node): (r: Result<State, Error>)
    requires Valid(st)
    ensures r.Success? ==> Valid(r.value) && Grows(st, r.value) && |r.value.store| > |st.store|
    decreases node, 1, 0
  {
    var st1 := st.(subfields := Some(|st.store|), store := st.store + [[]]);
    match VisitChildren(st1, node, 0)
    case Failure(e) => Failure(e)
    case Success(st2) =>
      var field := Entry(Indicator(node, "ind1"), Indicator(node, "ind2"), st2.subfields.value);
      Append(st2, Attr(node, "tag"), field)
  }

  /** `visit`: process the children of `parent` from the i-th on, stopping at the first error. */
  function VisitChildren(st: State, parent: Node, i: nat): (r: Result<State, Error>)
    requires Valid(st) && i <= |parent.children|
    ensures r.Success? ==> Valid(r.value) && Grows(st, r.value)
    decreases parent, 0, |parent.children| - i
  {
    if i == |parent.children| then Success(st)
    else
      match Process(st, parent.children[i])
      case Failure(e) => Failure(e)
      case Success(st') => VisitChildren(st', parent, i + 1)
  }

  function ResolveEntries(es: seq<Entry<nat>>, store: seq<SubfieldDict>): (r: seq<Entry<SubfieldDict>>)
    requires forall e :: e in es ==> e.subfields < |store|
    ensures |r| == |es|
    ensures forall j :: 0 <= j < |es| ==>
      r[j] == Entry(es[j].ind1, es[j].ind2, store[es[j].subfields])
  {
    if es == [] then [] else [Entry(es[0].ind1, es[0].ind2, store[es[0].subfields])] + ResolveEntries(es[1..], store)
  }

  function ResolveValue(v: FieldValue<nat>, store: seq<SubfieldDict>): FieldValue<SubfieldDict>
    requires ValueRefsBelow(v, |store|)
  {
    match v
    case ControlText(t) => ControlText(t)
    case Entries(es) => Entries(ResolveEntries(es, store))
  }

  function ResolveDict(d: Dict<Key, FieldValue<nat>>, store: seq<SubfieldDict>): (r: Dict<Key, FieldValue<SubfieldDict>>)
    requires RefsBelow(FieldDict(d), |store|)
    ensures Keys(r) == Keys(d)
  {
    if d == [] then []
    else [(d[0].0, ResolveValue(d[0].1, store))] + ResolveDict(d[1..], store)
  }

  /** The record the visitor returns, each entry showing the dict it refers to. */
  function Resolve(st: State): (r: Mij)
    requires Valid(st)
    ensures r.leader == st.record.leader
    ensures r.fields.FieldList? <==> st.record.fields.FieldList?
    ensures r.fields.FieldDict? ==> Keys(r.fields.dict) == Keys(st.record.fields.dict)
  {
    Record(st.record.leader,
      match st.record.fields
      case FieldList => FieldList
      case FieldDict(d) => FieldDict(ResolveDict(d, st.store)))
  }

  /** `convert_marc21xml_to_json(root)`: visit the root's children; the root itself is not dispatched. */
  function Convert(root: Node): (r: Result<Mij, Error>)
    ensures root.children == [] ==> r == Success(Record(Some(""), FieldDict([])))
  {
    match VisitChildren(InitialState, root, 0)
    case Failure(e) => Failure(e)
    case Success(st) => Success(Resolve(st))
  }
}
