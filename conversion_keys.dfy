/**
 * Every dict the conversion builds has each key once, as a Python dict does:
 * the fields dict of the record and every subfields dict. The association
 * lists of the model only stay faithful to dicts while this holds.
 */
module ConversionKeys {
  import opened Wrappers
  import opened Assoc
  import opened Xml
  import opened Conversion

  /** The fields dict, when there is one, and every dict of the store have unique keys. */
  predicate KeysUnique(st: State) {
    && (st.record.fields.FieldDict? ==> UniqueKeys(st.record.fields.dict))
    && forall i :: 0 <= i < |st.store| ==> UniqueKeys(st.store[i])
  }

  lemma AddSubfieldTextUnique(d: SubfieldDict, code: Key, text: Text)
    requires UniqueKeys(d)
    ensures UniqueKeys(AddSubfieldText(d, code, text))
  {
    var d1 := if Get(d, code).None? then Set(d, code, []) else d;
    if Get(d, code).None? {
      SetKeepsUniqueKeys(d, code, []);
    }
    SetKeepsUniqueKeys(d1, code, Get(d1, code).value + [text]);
  }

  lemma AppendUnique(st: State, tag: Key, field: Entry<nat>)
    requires Valid(st) && field.subfields < |st.store| && KeysUnique(st)
    ensures Append(st, tag, field).Success? ==> KeysUnique(Append(st, tag, field).value)
  {
    if st.record.fields.FieldDict? {
      var d := st.record.fields.dict;
      var d1 := if Get(d, tag).None? then Set(d, tag, Entries([])) else d;
      if Get(d, tag).None? {
        SetKeepsUniqueKeys(d, tag, Entries([]));
      }
      if Get(d1, tag).value.Entries? {
        SetKeepsUniqueKeys(d1, tag, Entries(Get(d1, tag).value.entries + [field]));
      }
    }
  }

  /** One step of the visitor keeps the keys of every dict unique. */
  lemma {:induction false} UniqueProcess(st: State, node: Node)
    requires Valid(st) && KeysUnique(st)
    ensures Process(st, node).Success? ==> KeysUnique(Process(st, node).value)
    decreases node, 2, 0
  {
    if node.tag == "record" {
      UniqueChildren(st.(record := Record(Some(""), FieldList)), node, 0);
    } else if node.tag == "controlfield" {
      if st.record.fields.FieldDict? {
        SetKeepsUniqueKeys(st.record.fields.dict, Attr(node, "tag"), ControlText(node.text));
      }
    } else if node.tag == "datafield" {
      var st1 := st.(subfields := Some(|st.store|), store := st.store + [[]]);
      UniqueChildren(st1, node, 0);
      match VisitChildren(st1, node, 0)
      case Failure(e) =>
      case Success(st2) =>
        AppendUnique(st2, Attr(node, "tag"), Entry(Indicator(node, "ind1"), Indicator(node, "ind2"), st2.subfields.value));
    } else if node.tag == "subfield" && st.subfields.Some? {
      AddSubfieldTextUnique(st.store[st.subfields.value], Attr(node, "code"), node.text);
    }
  }

  lemma {:induction false} UniqueChildren(st: State, parent: Node, i: nat)
    requires Valid(st) && KeysUnique(st) && i <= |parent.children|
    ensures VisitChildren(st, parent, i).Success? ==> KeysUnique(VisitChildren(st, parent, i).value)
    decreases parent, 0, |parent.children| - i
  {
    if i < |parent.children| {
      UniqueProcess(st, parent.children[i]);
      match Process(st, parent.children[i])
      case Failure(e) =>
      case Success(st') => UniqueChildren(st', parent, i + 1);
    }
  }

  /** Every subfields dict of a resolved entry is a dict of the store. */
  lemma {:induction false} ResolveDictFromStore(d: Dict<Key, FieldValue<nat>>, store: seq<SubfieldDict>, kv: (Key, FieldValue<SubfieldDict>), e: Entry<SubfieldDict>)
    requires RefsBelow(FieldDict(d), |store|)
    requires kv in ResolveDict(d, store) && kv.1.Entries? && e in kv.1.entries
    ensures e.subfields in store
    decreases d
  {
    var r := ResolveDict(d, store);
    if kv == r[0] {
      assert d[0] in d;
      var es := d[0].1.entries;
      var j :| 0 <= j < |ResolveEntries(es, store)| && ResolveEntries(es, store)[j] == e;
      assert es[j] in es;
    } else {
      assert kv in r[1..];
      assert forall x :: x in d[1..] ==> x in d;
      ResolveDictFromStore(d[1..], store, kv, e);
    }
  }

  /** Unique keys depend only on the sequence of keys. */
  lemma UniqueKeysOfKeys<K, V, W>(a: Dict<K, V>, b: Dict<K, W>)
    requires Keys(a) == Keys(b) && UniqueKeys(a)
    ensures UniqueKeys(b)
  {
    forall i, j | 0 <= i < j < |b| ensures b[i].0 != b[j].0 {
      assert Keys(a)[i] == a[i].0 && Keys(a)[j] == a[j].0;
      assert Keys(b)[i] == b[i].0 && Keys(b)[j] == b[j].0;
    }
  }

  /**
   * In the converted record the fields dict has each tag once, and every
   * subfields dict of an entry has each code once.
   */
  lemma ConvertKeysUnique(root: Node)
    ensures Convert(root).Success? && Convert(root).value.fields.FieldDict? ==>
      var d := Convert(root).value.fields.dict;
      && UniqueKeys(d)
      && forall kv, e :: kv in d && kv.1.Entries? && e in kv.1.entries ==> UniqueKeys(e.subfields)
  {
    assert KeysUnique(InitialState);
    UniqueChildren(InitialState, root, 0);
    match VisitChildren(InitialState, root, 0)
    case Failure(_) =>
    case Success(st) =>
      if st.record.fields.FieldDict? {
        var d := ResolveDict(st.record.fields.dict, st.store);
        UniqueKeysOfKeys(st.record.fields.dict, d);
        forall kv, e | kv in d && kv.1.Entries? && e in kv.1.entries ensures UniqueKeys(e.subfields) {
          ResolveDictFromStore(st.record.fields.dict, st.store, kv, e);
        }
      }
  }
}
