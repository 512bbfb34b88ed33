/**
 * What the conversion does to the mij form when a tree grows by one
 * element, and the quirks of the visitor that the model keeps.
 */
module ConversionProps {
  import opened Wrappers
  import opened Assoc
  import opened Xml
  import opened Document
  import opened Conversion

  // ---------------------------------------------------------------------------
  // Resolving references

  lemma ResolveEntriesAppend(es: seq<Entry<nat>>, e: Entry<nat>, store: seq<SubfieldDict>)
    requires forall x :: x in es + [e] ==> x.subfields < |store|
    ensures ResolveEntries(es + [e], store) == ResolveEntries(es, store) + [Entry(e.ind1, e.ind2, store[e.subfields])]
  {
  }

  /** Looking a tag up in the resolved dict is resolving what the raw dict holds. */
  lemma {:induction false} ResolveGet(d: Dict<Key, FieldValue<nat>>, store: seq<SubfieldDict>, k: Key)
    requires RefsBelow(FieldDict(d), |store|)
    ensures Get(d, k).None? ==> Get(ResolveDict(d, store), k).None?
    ensures Get(d, k).Some? ==> ValueRefsBelow(Get(d, k).value, |store|)
    ensures Get(d, k).Some? ==> Get(ResolveDict(d, store), k) == Some(ResolveValue(Get(d, k).value, store))
  {
    if d != [] {
      var r := ResolveDict(d, store);
      assert r[1..] == ResolveDict(d[1..], store);
      if d[0].0 != k {
        ResolveGet(d[1..], store, k);
      }
    }
  }

  /** Resolving after `d[k] = v` is assigning the resolved value in the resolved dict. */
  lemma {:induction false} ResolveSet(d: Dict<Key, FieldValue<nat>>, k: Key, v: FieldValue<nat>, store: seq<SubfieldDict>)
    requires RefsBelow(FieldDict(d), |store|) && ValueRefsBelow(v, |store|)
    ensures RefsBelow(FieldDict(Set(d, k, v)), |store|)
    ensures ResolveDict(Set(d, k, v), store) == Set(ResolveDict(d, store), k, ResolveValue(v, store))
  {
    SetKeepsRefsBelow(d, k, v, |store|);
    if d != [] {
      var r := ResolveDict(d, store);
      assert r[1..] == ResolveDict(d[1..], store);
      if d[0].0 == k {
        assert ([(k, v)] + d[1..])[1..] == d[1..];
      } else {
        ResolveSet(d[1..], k, v, store);
        assert Set(d, k, v)[1..] == Set(d[1..], k, v);
      }
    }
  }

  lemma ResolveValueIgnoresLaterDicts(v: FieldValue<nat>, store: seq<SubfieldDict>, store': seq<SubfieldDict>, n: nat)
    requires n <= |store| && n <= |store'| && forall j :: 0 <= j < n ==> store[j] == store'[j]
    requires ValueRefsBelow(v, n)
    ensures ResolveValue(v, store) == ResolveValue(v, store')
  {
    if v.Entries? {
      var a, b := ResolveEntries(v.entries, store), ResolveEntries(v.entries, store');
      assert |a| == |b|;
      forall j | 0 <= j < |a| ensures a[j] == b[j] {
        assert v.entries[j] in v.entries;
      }
    }
  }

  /** Dicts that no entry refers to do not matter to the resolved form. */
  lemma {:induction false} ResolveIgnoresLaterDicts(d: Dict<Key, FieldValue<nat>>, store: seq<SubfieldDict>, store': seq<SubfieldDict>, n: nat)
    requires n <= |store| && n <= |store'| && forall j :: 0 <= j < n ==> store[j] == store'[j]
    requires RefsBelow(FieldDict(d), n)
    ensures ResolveDict(d, store) == ResolveDict(d, store')
  {
    if d != [] {
      assert d[0] in d;
      ResolveValueIgnoresLaterDicts(d[0].1, store, store', n);
      assert forall e :: e in d[1..] ==> e in d;
      ResolveIgnoresLaterDicts(d[1..], store, store', n);
    }
  }

  // ---------------------------------------------------------------------------
  // Walking children

  /** Processing `child` after an outcome, passing an error through. */
  function Then(r: Result<State, Error>, child: Node): Result<State, Error>
    requires r.Success? ==> Valid(r.value)
  {
    match r
    case Failure(e) => Failure(e)
    case Success(st) => Process(st, child)
  }

  /** Visiting the children of `parent` with one more child is visiting the old ones, then that child. */
  lemma {:induction false} VisitChildrenAppend(st: State, parent: Node, child: Node, i: nat)
    requires Valid(st) && i <= |parent.children|
    ensures VisitChildren(st, AppendChild(parent, child), i) == Then(VisitChildren(st, parent, i), child)
    decreases |parent.children| - i
  {
    var parent' := AppendChild(parent, child);
    assert parent'.children[i] == if i < |parent.children| then parent.children[i] else child;
    if i < |parent.children| {
      match Process(st, parent.children[i])
      case Failure(e) =>
      case Success(st') => VisitChildrenAppend(st', parent, child, i + 1);
    }
  }

  /** Only the children of a node decide how it is visited. */
  lemma {:induction false} VisitChildrenOnlyChildren(st: State, a: Node, b: Node, i: nat)
    requires Valid(st) && a.children == b.children && i <= |a.children|
    ensures VisitChildren(st, a, i) == VisitChildren(st, b, i)
    decreases |a.children| - i
  {
    if i < |a.children| {
      match Process(st, a.children[i])
      case Failure(e) =>
      case Success(st') => VisitChildrenOnlyChildren(st', a, b, i + 1);
    }
  }

  /**
   * The root element is never dispatched: two roots with the same children
   * convert alike, whatever their tags (a root not named `record` is not an error).
   */
  lemma ConvertIgnoresRoot(a: Node, b: Node)
    requires a.children == b.children
    ensures Convert(a) == Convert(b)
  {
    VisitChildrenOnlyChildren(InitialState, a, b, 0);
  }

  /** A converted state in mij form, an error passing through. */
  function ResolveOutcome(r: Result<State, Error>): Result<Mij, Error>
    requires r.Success? ==> Valid(r.value)
  {
    match r
    case Failure(e) => Failure(e)
    case Success(st) => Success(Resolve(st))
  }

  lemma ConvertAppend(root: Node, child: Node)
    ensures Convert(AppendChild(root, child)) == ResolveOutcome(Then(VisitChildren(InitialState, root, 0), child))
  {
    VisitChildrenAppend(InitialState, root, child, 0);
  }

  // ---------------------------------------------------------------------------
  // A fresh record

  /** A new document converts to `{"leader": "00000nam a2200000zca4500", "fields": {}}`. */
  lemma NewRecordConverts()
    ensures Convert(NewRecordTree()) == Success(Record(Some(DefaultLeader), FieldDict([])))
  {
    var t := NewRecordTree();
    var st := VisitLeader(InitialState, t.children[0]);
    assert VisitChildren(st, t, 1) == Success(st);
    assert VisitChildren(InitialState, t, 0) == Success(st);
  }

  // ---------------------------------------------------------------------------
  // Appending a controlfield

  /** What a controlfield does to the mij form: `fields[tag] = text`, or the error it raises. */
  function AfterControlfield(r: Result<Mij, Error>, tag: Key, text: Text): Result<Mij, Error> {
    match r
    case Failure(e) => Failure(e)
    case Success(m) =>
      match m.fields
      case FieldList => Failure(FieldsNotADict(tag))
      case FieldDict(d) => Success(Record(m.leader, FieldDict(Set(d, tag, ControlText(text)))))
  }

  /** A controlfield appended to the root sets its tag to its text in the converted record. */
  lemma ConvertAppendControlfield(root: Node, c: Node)
    requires c.tag == "controlfield"
    ensures Convert(AppendChild(root, c)) == AfterControlfield(Convert(root), Attr(c, "tag"), c.text)
  {
    ConvertAppend(root, c);
    match VisitChildren(InitialState, root, 0)
    case Failure(e) =>
    case Success(st) =>
      if st.record.fields.FieldDict? {
        ResolveSet(st.record.fields.dict, Attr(c, "tag"), ControlText(c.text), st.store);
      }
  }

  /**
   * After `emplace_controlfield(tag, value)` the converted record maps `tag`
   * to `value`, whatever the tag held before: the last controlfield wins.
   */
  lemma EmplacedControlfieldWins(root: Node, tag: string, value: string)
    requires Convert(root).Success? && Convert(root).value.fields.FieldDict?
    ensures var r := Convert(AppendChild(root, ControlfieldElement(tag, value)));
      && r.Success? && r.value.leader == Convert(root).value.leader && r.value.fields.FieldDict?
      && Get(r.value.fields.dict, Some(tag)) == Some(ControlText(Some(value)))
      && forall k :: k != Some(tag) ==> Get(r.value.fields.dict, k) == Get(Convert(root).value.fields.dict, k)
  {
    ConvertAppendControlfield(root, ControlfieldElement(tag, value));
  }

  // ---------------------------------------------------------------------------
  // Appending a datafield whose children are subfields

  /** The texts of the subfields in `cs` whose code is `code`, in document order. */
  function TextsWithCode(cs: seq<Node>, code: Key): seq<Text> {
    if cs == [] then []
    else (if Attr(cs[0], "code") == code then [cs[0].text] else []) + TextsWithCode(cs[1..], code)
  }

  /** The dict that `visit_subfield` builds from the subfields `cs`, starting from `d`. */
  function SubfieldsFrom(d: SubfieldDict, cs: seq<Node>): SubfieldDict
    decreases cs
  {
    if cs == [] then d else SubfieldsFrom(AddSubfieldText(d, Attr(cs[0], "code"), cs[0].text), cs[1..])
  }

  function SubfieldsOf(cs: seq<Node>): SubfieldDict {
    SubfieldsFrom([], cs)
  }

  /** `ts` appended to what `before` holds: what a code holds once more texts come in. */
  function Extended(before: Option<seq<Text>>, ts: seq<Text>): Option<seq<Text>> {
    match before
    case Some(vs) => Some(vs + ts)
    case None => if ts == [] then None else Some(ts)
  }

  /** One more subfield: its text goes before the texts still to come under its code. */
  lemma AddSubfieldTextExtended(d: SubfieldDict, c: Key, t: Text, k: Key, rest: seq<Text>)
    ensures Extended(Get(AddSubfieldText(d, c, t), k), rest)
         == Extended(Get(d, k), (if c == k then [t] else []) + rest)
  {
    if c == k {
      match Get(d, k)
      case Some(vs) =>
        assert vs + [t] + rest == vs + ([t] + rest);
      case None =>
        assert [] + [t] == [t];
    } else {
      assert [] + rest == rest;
    }
  }

  lemma {:induction false} SubfieldsFromGet(d: SubfieldDict, cs: seq<Node>, k: Key)
    ensures Get(SubfieldsFrom(d, cs), k) == Extended(Get(d, k), TextsWithCode(cs, k))
    decreases cs
  {
    if cs != [] {
      var c, t := Attr(cs[0], "code"), cs[0].text;
      SubfieldsFromGet(AddSubfieldText(d, c, t), cs[1..], k);
      AddSubfieldTextExtended(d, c, t, k, TextsWithCode(cs[1..], k));
    } else if Get(d, k).Some? {
      assert Get(d, k).value + [] == Get(d, k).value;
    }
  }

  /**
   * Each code of a datafield's subfields maps to the texts of the subfields
   * with that code, in document order; a code no subfield has is absent.
   */
  lemma SubfieldsCollectedInOrder(cs: seq<Node>, k: Key)
    ensures Get(SubfieldsOf(cs), k) == if TextsWithCode(cs, k) == [] then None else Some(TextsWithCode(cs, k))
  {
    SubfieldsFromGet([], cs, k);
  }

  predicate AllSubfields(cs: seq<Node>) {
    forall c :: c in cs ==> c.tag == "subfield"
  }

  /** One subfield adds its text to the current subfields dict. */
  lemma ProcessSubfield(st: State, c: Node)
    requires Valid(st) && st.subfields.Some? && c.tag == "subfield"
    ensures Process(st, c)
      == Success(st.(store := st.store[st.subfields.value := AddSubfieldText(st.store[st.subfields.value], Attr(c, "code"), c.text)]))
  {
  }

  /** Visiting subfields adds their texts to the current subfields dict and changes nothing else. */
  lemma {:induction false} VisitSubfields(st: State, df: Node, i: nat)
    requires Valid(st) && st.subfields.Some? && i <= |df.children| && AllSubfields(df.children[i..])
    ensures VisitChildren(st, df, i)
      == Success(st.(store := st.store[st.subfields.value := SubfieldsFrom(st.store[st.subfields.value], df.children[i..])]))
    decreases |df.children| - i
  {
    var n := st.subfields.value;
    if i == |df.children| {
      assert st.store[n := st.store[n]] == st.store;
    } else {
      var c := df.children[i];
      var cs := df.children[i..];
      assert cs[0] == c && cs[1..] == df.children[i + 1..];
      assert c in cs;
      var st' := st.(store := st.store[n := AddSubfieldText(st.store[n], Attr(c, "code"), c.text)]);
      assert Process(st, c) == Success(st') by {
        ProcessSubfield(st, c);
      }
      assert VisitChildren(st, df, i) == VisitChildren(st', df, i + 1);
      var d := SubfieldsFrom(st'.store[n], df.children[i + 1..]);
      assert d == SubfieldsFrom(st.store[n], cs);
      VisitSubfields(st', df, i + 1);
      assert st'.store[n := d] == st.store[n := d];
    }
  }

  /** The entry `visit_datafield` makes for a datafield whose children are subfields. */
  function EntryOf(df: Node): Entry<SubfieldDict> {
    Entry(Indicator(df, "ind1"), Indicator(df, "ind2"), SubfieldsOf(df.children))
  }

  /**
   * What a datafield does to the mij form: its entry is appended to the list
   * under its tag (a new tag gets a new list), or the error it raises.
   */
  function AfterDatafield(r: Result<Mij, Error>, tag: Key, e: Entry<SubfieldDict>): Result<Mij, Error> {
    match r
    case Failure(err) => Failure(err)
    case Success(m) =>
      match m.fields
      case FieldList => Failure(FieldsNotADict(tag))
      case FieldDict(d) =>
        match Get(d, tag)
        case None => Success(Record(m.leader, FieldDict(Set(d, tag, Entries([e])))))
        case Some(v) =>
          match v
          case Entries(es) => Success(Record(m.leader, FieldDict(Set(d, tag, Entries(es + [e])))))
          case ControlText(_) => Failure(NotAList(tag))
  }

  /** `visit_datafield` on subfields: a new dict holding them, then `append` of an entry referring to it. */
  lemma ProcessDatafield(st: State, df: Node)
    requires Valid(st) && df.tag == "datafield" && AllSubfields(df.children)
    ensures var n := |st.store|;
      var st2 := st.(subfields := Some(n), store := st.store + [SubfieldsOf(df.children)]);
      && Valid(st2)
      && Process(st, df) == Append(st2, Attr(df, "tag"), Entry(Indicator(df, "ind1"), Indicator(df, "ind2"), n))
  {
    var n := |st.store|;
    var st1 := st.(subfields := Some(n), store := st.store + [[]]);
    assert df.children[0..] == df.children;
    VisitSubfields(st1, df, 0);
    var st2 := st1.(store := st1.store[n := SubfieldsOf(df.children)]);
    assert st2.store == st.store + [SubfieldsOf(df.children)];
    assert RefsBelow(st2.record.fields, |st2.store|);
  }

  /** A first entry under a new tag, referring to the new last dict, seen in mij form. */
  lemma ResolveFirstEntry(d: Dict<Key, FieldValue<nat>>, store: seq<SubfieldDict>, dict: SubfieldDict, tag: Key, field: Entry<nat>)
    requires RefsBelow(FieldDict(d), |store|) && field.subfields == |store|
    ensures RefsBelow(FieldDict(Set(d, tag, Entries([field]))), |store| + 1)
    ensures ResolveDict(Set(d, tag, Entries([field])), store + [dict])
         == Set(ResolveDict(d, store), tag, Entries([Entry(field.ind1, field.ind2, dict)]))
  {
    var n := |store|;
    RefsBelowGrow(FieldDict(d), n, n + 1);
    ResolveSet(d, tag, Entries([field]), store + [dict]);
    ResolveIgnoresLaterDicts(d, store, store + [dict], n);
    assert (store + [dict])[n] == dict;
    assert ResolveEntries([field], store + [dict]) == [Entry(field.ind1, field.ind2, dict)];
  }

  /** One more entry under a tag that holds a list, referring to the new last dict, seen in mij form. */
  lemma ResolveNextEntry(d: Dict<Key, FieldValue<nat>>, store: seq<SubfieldDict>, dict: SubfieldDict, tag: Key, es: seq<Entry<nat>>, field: Entry<nat>)
    requires RefsBelow(FieldDict(d), |store|) && field.subfields == |store|
    requires Get(d, tag) == Some(Entries(es))
    ensures RefsBelow(FieldDict(Set(d, tag, Entries(es + [field]))), |store| + 1)
    ensures ValueRefsBelow(Entries(es), |store|)
    ensures Get(ResolveDict(d, store), tag) == Some(Entries(ResolveEntries(es, store)))
    ensures ResolveDict(Set(d, tag, Entries(es + [field])), store + [dict])
         == Set(ResolveDict(d, store), tag, Entries(ResolveEntries(es, store) + [Entry(field.ind1, field.ind2, dict)]))
  {
    var n := |store|;
    var store2 := store + [dict];
    ResolveGet(d, store, tag);
    RefsBelowGrow(FieldDict(d), n, n + 1);
    assert ValueRefsBelow(Entries(es + [field]), n + 1);
    ResolveSet(d, tag, Entries(es + [field]), store2);
    ResolveEntriesAppend(es, field, store2);
    ResolveIgnoresLaterDicts(d, store, store2, n);
    ResolveValueIgnoresLaterDicts(Entries(es), store, store2, n);
  }

  /** `append` of an entry referring to a new last dict, seen in mij form. */
  lemma ResolveAppendNew(st: State, dict: SubfieldDict, tag: Key, ind1: string, ind2: string)
    requires Valid(st)
    ensures var n := |st.store|;
      var st2 := st.(subfields := Some(n), store := st.store + [dict]);
      && Valid(st2)
      && ResolveOutcome(Append(st2, tag, Entry(ind1, ind2, n)))
         == AfterDatafield(Success(Resolve(st)), tag, Entry(ind1, ind2, dict))
  {
    var n := |st.store|;
    var st2 := st.(subfields := Some(n), store := st.store + [dict]);
    var field := Entry(ind1, ind2, n);
    RefsBelowGrow(st.record.fields, n, n + 1);
    match st.record.fields
    case FieldList =>
    case FieldDict(d) =>
      ResolveGet(d, st.store, tag);
      if Get(d, tag).None? {
        assert [] + [field] == [field];
        SetSet(d, tag, Entries([]), Entries([field]));
        ResolveFirstEntry(d, st.store, dict, tag, field);
      } else {
        match Get(d, tag).value
        case ControlText(_) =>
        case Entries(es) =>
          ResolveNextEntry(d, st.store, dict, tag, es, field);
      }
  }

  /** A datafield of subfields appended to the root appends its entry under its tag. */
  lemma ConvertAppendDatafield(root: Node, df: Node)
    requires df.tag == "datafield" && AllSubfields(df.children)
    ensures Convert(AppendChild(root, df)) == AfterDatafield(Convert(root), Attr(df, "tag"), EntryOf(df))
  {
    ConvertAppend(root, df);
    match VisitChildren(InitialState, root, 0)
    case Failure(e) =>
    case Success(st) =>
      ProcessDatafield(st, df);
      ResolveAppendNew(st, SubfieldsOf(df.children), Attr(df, "tag"), Indicator(df, "ind1"), Indicator(df, "ind2"));
  }

  /** The subfields dict of a datafield with one subfield. */
  lemma SingleSubfield(code: string, value: string)
    ensures SubfieldsOf([SubfieldElement(code, value)]) == [(Some(code), [Some(value)])]
  {
    var sf := SubfieldElement(code, value);
    var k, t := Some(code), Some(value);
    assert [sf][1..] == [];
    assert Attr(sf, "code") == k;
    var d1: SubfieldDict := Set([], k, []);
    assert d1 == [(k, [])];
    assert Get(d1, k) == Some([]);
    assert [] + [t] == [t];
    var d2 := Set(d1, k, [t]);
    assert d1[0].0 == k && d1[1..] == [];
    assert d2 == [(k, [t])];
    assert AddSubfieldText([], k, t) == d2;
    assert sf.text == t;
    assert SubfieldsFrom([], [sf]) == SubfieldsFrom(d2, []);
  }

  /**
   * After `emplace_field(tag, ind1, ind2, code, value)` the list under `tag`
   * ends with an entry whose indicators have their spaces replaced and whose
   * subfields map `code` to `[value]`.
   */
  lemma EmplacedFieldAppendsEntry(root: Node, tag: string, ind1: string, ind2: string, code: string, value: string)
    ensures Convert(AppendChild(root, DatafieldElement(tag, ind1, ind2, code, value)))
         == AfterDatafield(Convert(root), Some(tag),
              Entry(Underscored(ind1), Underscored(ind2), [(Some(code), [Some(value)])]))
  {
    var df := DatafieldElement(tag, ind1, ind2, code, value);
    assert df.children == [SubfieldElement(code, value)];
    assert AllSubfields(df.children);
    ConvertAppendDatafield(root, df);
    SingleSubfield(code, value);
    assert EntryOf(df) == Entry(Underscored(ind1), Underscored(ind2), [(Some(code), [Some(value)])]);
  }

  /** The entries the datafields `dfs` make, in order. */
  function EntriesOf(dfs: seq<Node>): (es: seq<Entry<SubfieldDict>>)
    ensures |es| == |dfs| && forall i :: 0 <= i < |dfs| ==> es[i] == EntryOf(dfs[i])
  {
    seq(|dfs|, i requires 0 <= i < |dfs| => EntryOf(dfs[i]))
  }

  /** Datafields of subfields, all with the attribute `tag`. */
  predicate DatafieldsTagged(dfs: seq<Node>, tag: Key) {
    forall df :: df in dfs ==> df.tag == "datafield" && Attr(df, "tag") == tag && AllSubfields(df.children)
  }

  /** The list under `tag` in `r` is `es`, and `r` agrees with `m` on the leader and every other tag. */
  ghost predicate ListUnder(r: Result<Mij, Error>, m: Mij, tag: Key, es: seq<Entry<SubfieldDict>>)
    requires m.fields.FieldDict?
  {
    && r.Success? && r.value.leader == m.leader && r.value.fields.FieldDict?
    && Get(r.value.fields.dict, tag) == Some(Entries(es))
    && forall k :: k != tag ==> Get(r.value.fields.dict, k) == Get(m.fields.dict, k)
  }

  lemma EntriesOfSnoc(es: seq<Entry<SubfieldDict>>, dfs: seq<Node>)
    requires dfs != []
    ensures es + EntriesOf(dfs[..|dfs| - 1]) + [EntryOf(dfs[|dfs| - 1])] == es + EntriesOf(dfs)
  {
    assert EntriesOf(dfs) == EntriesOf(dfs[..|dfs| - 1]) + [EntryOf(dfs[|dfs| - 1])];
  }

  lemma EntriesOfCons(dfs: seq<Node>)
    requires dfs != []
    ensures [EntryOf(dfs[0])] + EntriesOf(dfs[1..]) == EntriesOf(dfs)
  {
    var es, tail := EntriesOf(dfs), EntriesOf(dfs[1..]);
    forall j | 0 < j < |dfs| ensures es[j] == tail[j - 1] {
      assert dfs[1..][j - 1] == dfs[j];
    }
    assert [EntryOf(dfs[0])] + tail == es;
  }

  /** Appending children one at a time, from the first. */
  lemma ChildrenCons(root: Node, cs: seq<Node>)
    requires cs != []
    ensures root.(children := root.children + cs)
         == AppendChild(root, cs[0]).(children := AppendChild(root, cs[0]).children + cs[1..])
  {
    assert root.children + [cs[0]] + cs[1..] == root.children + cs;
  }

  /** Appending children one more at a time. */
  lemma ChildrenSnoc(root: Node, cs: seq<Node>)
    requires cs != []
    ensures root.(children := root.children + cs)
         == AppendChild(root.(children := root.children + cs[..|cs| - 1]), cs[|cs| - 1])
  {
    assert root.children + cs == root.children + cs[..|cs| - 1] + [cs[|cs| - 1]];
  }

  lemma ListUnderTrans(r: Result<Mij, Error>, m1: Mij, m: Mij, tag: Key, es0: seq<Entry<SubfieldDict>>, es: seq<Entry<SubfieldDict>>)
    requires m.fields.FieldDict? && m1.fields.FieldDict?
    requires ListUnder(Success(m1), m, tag, es0) && ListUnder(r, m1, tag, es)
    ensures ListUnder(r, m, tag, es)
  {
  }

  /** One datafield after a list under its tag extends that list. */
  lemma AfterDatafieldExtends(m: Mij, tag: Key, es: seq<Entry<SubfieldDict>>, e: Entry<SubfieldDict>)
    requires m.fields.FieldDict? && Get(m.fields.dict, tag) == Some(Entries(es))
    ensures ListUnder(AfterDatafield(Success(m), tag, e), m, tag, es + [e])
  {
  }

  /** One datafield under a tag the record does not have starts a list. */
  lemma AfterDatafieldStarts(m: Mij, tag: Key, e: Entry<SubfieldDict>)
    requires m.fields.FieldDict? && Get(m.fields.dict, tag).None?
    ensures ListUnder(AfterDatafield(Success(m), tag, e), m, tag, [e])
  {
  }

  /**
   * Datafields sharing a tag extend the list under that tag in document
   * order; the leader and the other tags are unchanged.
   */
  lemma {:induction false} DatafieldsExtendList(root: Node, dfs: seq<Node>, tag: Key, es: seq<Entry<SubfieldDict>>)
    requires DatafieldsTagged(dfs, tag)
    requires Convert(root).Success? && Convert(root).value.fields.FieldDict?
    requires Get(Convert(root).value.fields.dict, tag) == Some(Entries(es))
    ensures ListUnder(Convert(root.(children := root.children + dfs)), Convert(root).value, tag, es + EntriesOf(dfs))
    decreases |dfs|
  {
    var m := Convert(root).value;
    if dfs == [] {
      assert root.(children := root.children + dfs) == root;
      assert es + EntriesOf(dfs) == es;
    } else {
      var init, last := dfs[..|dfs| - 1], dfs[|dfs| - 1];
      var mid := root.(children := root.children + init);
      ChildrenSnoc(root, dfs);
      EntriesOfSnoc(es, dfs);
      assert last in dfs;
      assert DatafieldsTagged(init, tag) by {
        assert forall df :: df in init ==> df in dfs;
      }
      DatafieldsExtendList(root, init, tag, es);
      var r1 := Convert(mid);
      var m1 := r1.value;
      ConvertAppendDatafield(mid, last);
      AfterDatafieldExtends(m1, tag, es + EntriesOf(init), EntryOf(last));
      ListUnderTrans(AfterDatafield(r1, tag, EntryOf(last)), m1, m, tag, es + EntriesOf(init), es + EntriesOf(dfs));
    }
  }

  /**
   * n datafields with a tag the record does not have yet become a list of n
   * entries under that tag, in document order.
   */
  lemma DatafieldsMakeList(root: Node, dfs: seq<Node>, tag: Key)
    requires DatafieldsTagged(dfs, tag) && dfs != []
    requires Convert(root).Success? && Convert(root).value.fields.FieldDict?
    requires Get(Convert(root).value.fields.dict, tag).None?
    ensures ListUnder(Convert(root.(children := root.children + dfs)), Convert(root).value, tag, EntriesOf(dfs))
    ensures |EntriesOf(dfs)| == |dfs|
  {
    var m := Convert(root).value;
    var first := AppendChild(root, dfs[0]);
    assert dfs[0] in dfs;
    assert forall df :: df in dfs[1..] ==> df in dfs;
    ConvertAppendDatafield(root, dfs[0]);
    AfterDatafieldStarts(m, tag, EntryOf(dfs[0]));
    DatafieldsExtendList(first, dfs[1..], tag, [EntryOf(dfs[0])]);
    ChildrenCons(root, dfs);
    EntriesOfCons(dfs);
    ListUnderTrans(Convert(root.(children := root.children + dfs)), Convert(first).value, m, tag, [EntryOf(dfs[0])], EntriesOf(dfs));
  }
}
