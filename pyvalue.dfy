/**
 * The Python values the document exchanges with its callers: what the `json`
 * setter accepts, and the nested dicts and lists the mij record is made of.
 */
module PyValue {
  import opened Wrappers
  import opened Conversion

  /** A Python value as far as the document cares: dicts keep insertion order. */
  datatype PyObject =
    | PyNone
    | PyStr(s: string)
    | PyList(items: seq<PyObject>)
    | PyDict(entries: seq<(PyObject, PyObject)>)
    | PyOther

  // ---------------------------------------------------------------------------
  // Lists, element by element

  function MapSeq<A, B>(f: A -> B, xs: seq<A>): (ys: seq<B>)
    ensures |ys| == |xs| && forall i :: 0 <= i < |xs| ==> ys[i] == f(xs[i])
  {
    seq(|xs|, i requires 0 <= i < |xs| => f(xs[i]))
  }

  /** Every element decoded by `g`, or `None` when one of them does not decode. */
  function TryMap<A, B>(g: A -> Option<B>, ys: seq<A>): (r: Option<seq<B>>)
    ensures r.Some? ==> |r.value| == |ys| && forall i :: 0 <= i < |ys| ==> g(ys[i]) == Some(r.value[i])
    ensures r.None? ==> exists i :: 0 <= i < |ys| && g(ys[i]).None?
  {
    if ys == [] then Some([])
    else
      match g(ys[0])
      case None => None
      case Some(x) =>
        match TryMap(g, ys[1..])
        case None => None
        case Some(xs) => Some([x] + xs)
  }

  /** Decoding undoes encoding element by element, so it undoes it on the whole list. */
  lemma TryMapInverts<A, B>(f: B -> A, g: A -> Option<B>, xs: seq<B>)
    requires forall x :: x in xs ==> g(f(x)) == Some(x)
    ensures TryMap(g, MapSeq(f, xs)) == Some(xs)
  {
    var ys := MapSeq(f, xs);
    forall i | 0 <= i < |ys| ensures g(ys[i]) == Some(xs[i]) {
      assert xs[i] in xs;
    }
    var r := TryMap(g, ys);
    assert r.Some?;
    assert r.value == xs;
  }

  /** A list that decodes element by element is the encoding of what it decodes to. */
  lemma TryMapOnlyImages<A, B>(f: B -> A, g: A -> Option<B>, ys: seq<A>)
    requires forall y :: y in ys ==> g(y).Some? ==> f(g(y).value) == y
    requires TryMap(g, ys).Some?
    ensures MapSeq(f, TryMap(g, ys).value) == ys
  {
    var xs := TryMap(g, ys).value;
    forall i | 0 <= i < |ys| ensures f(xs[i]) == ys[i] {
      assert ys[i] in ys;
    }
  }

  // ---------------------------------------------------------------------------
  // The mij record as Python values

  /** A text or a key: `None` or a string. */
  function TextToPy(t: Text): PyObject {
    match t
    case None => PyNone
    case Some(s) => PyStr(s)
  }

  function PyToText(v: PyObject): Option<Text> {
    match v
    case PyNone => Some(None)
    case PyStr(s) => Some(Some(s))
    case _ => None
  }

  /** `code: [text, ...]`. */
  function SubfieldItemToPy(item: (Key, seq<Text>)): (PyObject, PyObject) {
    (TextToPy(item.0), PyList(MapSeq(TextToPy, item.1)))
  }

  function PyToSubfieldItem(p: (PyObject, PyObject)): Option<(Key, seq<Text>)> {
    match PyToText(p.0)
    case None => None
    case Some(k) =>
      match p.1
      case PyList(vs) =>
        (match TryMap(PyToText, vs)
         case None => None
         case Some(ts) => Some((k, ts)))
      case _ => None
  }

  /** `{"ind1": ..., "ind2": ..., "subfields": {...}}`. */
  function EntryToPy(e: Entry<SubfieldDict>): PyObject {
    PyDict([(PyStr("ind1"), PyStr(e.ind1)), (PyStr("ind2"), PyStr(e.ind2)),
            (PyStr("subfields"), PyDict(MapSeq(SubfieldItemToPy, e.subfields)))])
  }

  function PyToEntry(v: PyObject): Option<Entry<SubfieldDict>> {
    match v
    case PyDict(items) =>
      if |items| == 3 && items[0].0 == PyStr("ind1") && items[1].0 == PyStr("ind2") && items[2].0 == PyStr("subfields")
         && items[0].1.PyStr? && items[1].1.PyStr? && items[2].1.PyDict?
      then
        match TryMap(PyToSubfieldItem, items[2].1.entries)
        case None => None
        case Some(d) => Some(Entry(items[0].1.s, items[1].1.s, d))
      else None
    case _ => None
  }

  /** A control field's text, or the list of a data field's entries. */
  function ValueToPy(v: FieldValue<SubfieldDict>): PyObject {
    match v
    case ControlText(t) => TextToPy(t)
    case Entries(es) => PyList(MapSeq(EntryToPy, es))
  }

  function PyToValue(v: PyObject): Option<FieldValue<SubfieldDict>> {
    match v
    case PyList(vs) =>
      (match TryMap(PyToEntry, vs)
       case None => None
       case Some(es) => Some(Entries(es)))
    case _ =>
      match PyToText(v)
      case None => None
      case Some(t) => Some(ControlText(t))
  }

  function FieldItemToPy(item: (Key, FieldValue<SubfieldDict>)): (PyObject, PyObject) {
    (TextToPy(item.0), ValueToPy(item.1))
  }

  function PyToFieldItem(p: (PyObject, PyObject)): Option<(Key, FieldValue<SubfieldDict>)> {
    match PyToText(p.0)
    case None => None
    case Some(k) =>
      match PyToValue(p.1)
      case None => None
      case Some(v) => Some((k, v))
  }

  /** `fields`: a dict, or the empty list `visit_record` leaves. */
  function FieldsToPy(fields: Fields<SubfieldDict>): PyObject {
    match fields
    case FieldList => PyList([])
    case FieldDict(d) => PyDict(MapSeq(FieldItemToPy, d))
  }

  function PyToFields(v: PyObject): Option<Fields<SubfieldDict>> {
    match v
    case PyList(vs) => if vs == [] then Some(FieldList) else None
    case PyDict(items) =>
      (match TryMap(PyToFieldItem, items)
       case None => None
       case Some(d) => Some(FieldDict(d)))
    case _ => None
  }

  /** `{"leader": ..., "fields": ...}`, the value `get_json_record` returns. */
  function MijToPy(m: Mij): PyObject {
    PyDict([(PyStr("leader"), TextToPy(m.leader)), (PyStr("fields"), FieldsToPy(m.fields))])
  }

  function PyToMij(v: PyObject): Option<Mij> {
    match v
    case PyDict(items) =>
      if |items| == 2 && items[0].0 == PyStr("leader") && items[1].0 == PyStr("fields") then
        match PyToText(items[0].1)
        case None => None
        case Some(leader) =>
          match PyToFields(items[1].1)
          case None => None
          case Some(fields) => Some(Record(leader, fields))
      else None
    case _ => None
  }

  /** `{"metadata": mij}`, what the `json` getter stores and returns. */
  function JsonView(m: Mij): (v: PyObject)
    ensures v.PyDict? && |v.entries| == 1 && v.entries[0].0 == PyStr("metadata")
    ensures PyToMij(v.entries[0].1) == Some(m)
  {
    MijIso(MijToPy(m), m);
    PyDict([(PyStr("metadata"), MijToPy(m))])
  }

  // ---------------------------------------------------------------------------
  // Encoding and decoding are inverse

  lemma TextIso(v: PyObject, t: Text)
    ensures PyToText(v) == Some(t) <==> v == TextToPy(t)
  {
  }

  lemma SubfieldItemIso(p: (PyObject, PyObject), item: (Key, seq<Text>))
    ensures PyToSubfieldItem(p) == Some(item) <==> p == SubfieldItemToPy(item)
  {
    forall t ensures PyToText(TextToPy(t)) == Some(t) { TextIso(TextToPy(t), t); }
    forall y ensures PyToText(y).Some? ==> TextToPy(PyToText(y).value) == y { }
    if p == SubfieldItemToPy(item) {
      TryMapInverts(TextToPy, PyToText, item.1);
    }
    if PyToSubfieldItem(p) == Some(item) {
      TryMapOnlyImages(TextToPy, PyToText, p.1.items);
    }
  }

  lemma SubfieldsIso(items: seq<(PyObject, PyObject)>, d: SubfieldDict)
    ensures TryMap(PyToSubfieldItem, items) == Some(d) <==> items == MapSeq(SubfieldItemToPy, d)
  {
    forall item ensures PyToSubfieldItem(SubfieldItemToPy(item)) == Some(item) {
      SubfieldItemIso(SubfieldItemToPy(item), item);
    }
    forall p | PyToSubfieldItem(p).Some? ensures SubfieldItemToPy(PyToSubfieldItem(p).value) == p {
      SubfieldItemIso(p, PyToSubfieldItem(p).value);
    }
    if items == MapSeq(SubfieldItemToPy, d) {
      TryMapInverts(SubfieldItemToPy, PyToSubfieldItem, d);
    }
    if TryMap(PyToSubfieldItem, items) == Some(d) {
      TryMapOnlyImages(SubfieldItemToPy, PyToSubfieldItem, items);
    }
  }

  lemma EntryIso(v: PyObject, e: Entry<SubfieldDict>)
    ensures PyToEntry(v) == Some(e) <==> v == EntryToPy(e)
  {
    if v == EntryToPy(e) {
      SubfieldsIso(MapSeq(SubfieldItemToPy, e.subfields), e.subfields);
    }
    if PyToEntry(v) == Some(e) {
      SubfieldsIso(v.entries[2].1.entries, e.subfields);
    }
  }

  lemma EntriesIso(vs: seq<PyObject>, es: seq<Entry<SubfieldDict>>)
    ensures TryMap(PyToEntry, vs) == Some(es) <==> vs == MapSeq(EntryToPy, es)
  {
    forall e ensures PyToEntry(EntryToPy(e)) == Some(e) { EntryIso(EntryToPy(e), e); }
    forall v | PyToEntry(v).Some? ensures EntryToPy(PyToEntry(v).value) == v { EntryIso(v, PyToEntry(v).value); }
    if vs == MapSeq(EntryToPy, es) {
      TryMapInverts(EntryToPy, PyToEntry, es);
    }
    if TryMap(PyToEntry, vs) == Some(es) {
      TryMapOnlyImages(EntryToPy, PyToEntry, vs);
    }
  }

  lemma ValueIso(v: PyObject, x: FieldValue<SubfieldDict>)
    ensures PyToValue(v) == Some(x) <==> v == ValueToPy(x)
  {
    match x
    case ControlText(t) =>
      TextIso(v, t);
      if v.PyList? {
        assert !PyToValue(v).Some? || PyToValue(v).value.Entries?;
      }
    case Entries(es) =>
      if v.PyList? {
        EntriesIso(v.items, es);
      } else {
        EntriesIso(MapSeq(EntryToPy, es), es);
      }
  }

  lemma FieldItemIso(p: (PyObject, PyObject), item: (Key, FieldValue<SubfieldDict>))
    ensures PyToFieldItem(p) == Some(item) <==> p == FieldItemToPy(item)
  {
    TextIso(p.0, item.0);
    ValueIso(p.1, item.1);
  }

  lemma FieldsIso(v: PyObject, fields: Fields<SubfieldDict>)
    ensures PyToFields(v) == Some(fields) <==> v == FieldsToPy(fields)
  {
    forall item ensures PyToFieldItem(FieldItemToPy(item)) == Some(item) {
      FieldItemIso(FieldItemToPy(item), item);
    }
    forall p | PyToFieldItem(p).Some? ensures FieldItemToPy(PyToFieldItem(p).value) == p {
      FieldItemIso(p, PyToFieldItem(p).value);
    }
    match fields
    case FieldList =>
    case FieldDict(d) =>
      if v == FieldsToPy(fields) {
        TryMapInverts(FieldItemToPy, PyToFieldItem, d);
      }
      if PyToFields(v) == Some(fields) {
        TryMapOnlyImages(FieldItemToPy, PyToFieldItem, v.entries);
      }
  }

  /**
   * The Python form of a mij record determines it: decoding gives back the
   * record, and only the record's own form decodes to it.
   */
  lemma MijIso(v: PyObject, m: Mij)
    ensures PyToMij(v) == Some(m) <==> v == MijToPy(m)
  {
    TextIso(TextToPy(m.leader), m.leader);
    FieldsIso(FieldsToPy(m.fields), m.fields);
    if v.PyDict? && |v.entries| == 2 {
      TextIso(v.entries[0].1, m.leader);
      FieldsIso(v.entries[1].1, m.fields);
    }
  }
}
