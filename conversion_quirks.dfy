/**
 * Behaviour of the conversion that follows from how the visitor dispatches
 * and shares its state: rewritten leaders, a nested record, elements it does
 * not know, and subfields outside a datafield.
 */
module ConversionQuirks {
  import opened Wrappers
  import opened Assoc
  import opened Xml
  import opened Document
  import opened Conversion
  import opened ConversionProps

  // ---------------------------------------------------------------------------
  // Rewriting the leaders

  /** `b` is `a` up to its leader, which is `t` or `a`'s. */
  predicate LeaderVariant(a: State, b: State, t: Text) {
    && b.record.fields == a.record.fields && b.subfields == a.subfields && b.store == a.store
    && (b.record.leader == t || b.record.leader == a.record.leader)
  }

  /** The same error, or states that are leader variants. */
  predicate OutcomeVariant(ra: Result<State, Error>, rb: Result<State, Error>, t: Text) {
    match ra
    case Failure(e) => rb == Failure(e)
    case Success(a) => rb.Success? && LeaderVariant(a, rb.value, t)
  }

  lemma {:induction false} LeaderProcess(a: State, b: State, node: Node, t: Text)
    requires Valid(a) && Valid(b) && LeaderVariant(a, b, t)
    ensures OutcomeVariant(Process(a, node), Process(b, WithLeaderText(node, t)), t)
    decreases node, 2, 0
  {
    var node' := WithLeaderText(node, t);
    if node.tag == "record" {
      var reset := Record(Some(""), FieldList);
      LeaderChildren(a.(record := reset), b.(record := reset), node, 0, t);
      assert Process(a, node) == VisitChildren(a.(record := reset), node, 0);
      assert Process(b, node') == VisitChildren(b.(record := reset), node', 0);
    } else if node.tag == "datafield" {
      var a1 := a.(subfields := Some(|a.store|), store := a.store + [[]]);
      var b1 := b.(subfields := Some(|b.store|), store := b.store + [[]]);
      LeaderChildren(a1, b1, node, 0, t);
      LeaderDatafield(a, b, node, t);
    } else if node.tag == "controlfield" || node.tag == "subfield" {
      LeaderLeaf(a, b, node, t);
    }
  }

  /** The controlfield and subfield steps of `LeaderProcess`. */
  lemma LeaderLeaf(a: State, b: State, node: Node, t: Text)
    requires Valid(a) && Valid(b) && LeaderVariant(a, b, t)
    requires node.tag == "controlfield" || node.tag == "subfield"
    ensures OutcomeVariant(Process(a, node), Process(b, WithLeaderText(node, t)), t)
  {
    var node' := WithLeaderText(node, t);
    assert Attr(node', "tag") == Attr(node, "tag") && Attr(node', "code") == Attr(node, "code");
    assert node'.text == node.text;
  }

  /** The datafield step of `LeaderProcess`, once its children are known to agree. */
  lemma LeaderDatafield(a: State, b: State, node: Node, t: Text)
    requires Valid(a) && Valid(b) && LeaderVariant(a, b, t) && node.tag == "datafield"
    requires var a1 := a.(subfields := Some(|a.store|), store := a.store + [[]]);
      var b1 := b.(subfields := Some(|b.store|), store := b.store + [[]]);
      OutcomeVariant(VisitChildren(a1, node, 0), VisitChildren(b1, WithLeaderText(node, t), 0), t)
    ensures OutcomeVariant(Process(a, node), Process(b, WithLeaderText(node, t)), t)
  {
    var node' := WithLeaderText(node, t);
    var a1 := a.(subfields := Some(|a.store|), store := a.store + [[]]);
    var b1 := b.(subfields := Some(|b.store|), store := b.store + [[]]);
    assert Process(a, node) == VisitDatafield(a, node);
    assert Process(b, node') == VisitDatafield(b, node');
    match VisitChildren(a1, node, 0)
    case Failure(e) =>
      assert VisitChildren(b1, node', 0) == Failure(e);
    case Success(a2) =>
      var b2 := VisitChildren(b1, node', 0).value;
      assert Attr(node', "tag") == Attr(node, "tag");
      assert Indicator(node', "ind1") == Indicator(node, "ind1");
      assert Indicator(node', "ind2") == Indicator(node, "ind2");
      var field := Entry(Indicator(node, "ind1"), Indicator(node, "ind2"), a2.subfields.value);
      assert Process(a, node) == Append(a2, Attr(node, "tag"), field);
      assert Process(b, node') == Append(b2, Attr(node, "tag"), field);
      AppendLeaderVariant(a2, b2, Attr(node, "tag"), field, t);
  }

  lemma AppendLeaderVariant(a: State, b: State, tag: Key, field: Entry<nat>, t: Text)
    requires Valid(a) && Valid(b) && LeaderVariant(a, b, t) && field.subfields < |a.store|
    ensures OutcomeVariant(Append(a, tag, field), Append(b, tag, field), t)
  {
  }

  lemma {:induction false} LeaderChildren(a: State, b: State, parent: Node, i: nat, t: Text)
    requires Valid(a) && Valid(b) && LeaderVariant(a, b, t) && i <= |parent.children|
    ensures OutcomeVariant(VisitChildren(a, parent, i), VisitChildren(b, WithLeaderText(parent, t), i), t)
    decreases parent, 0, |parent.children| - i
  {
    if i < |parent.children| {
      var c := parent.children[i];
      assert WithLeaderText(parent, t).children[i] == WithLeaderText(c, t);
      LeaderProcess(a, b, c, t);
      match Process(a, c)
      case Failure(e) =>
      case Success(a') =>
        LeaderChildren(a', Process(b, WithLeaderText(c, t)).value, parent, i + 1, t);
    }
  }

  /**
   * Setting the text of every leader to `t` changes nothing in the converted
   * record but its leader, which becomes `t` or stays as it was; an error
   * stays the same error.
   */
  lemma ConvertWithLeaderText(root: Node, t: Text)
    ensures var r, r' := Convert(root), Convert(WithLeaderText(root, t));
      && (r.Failure? ==> r' == r)
      && (r.Success? ==> r'.Success? && r'.value.fields == r.value.fields
                         && (r'.value.leader == t || r'.value.leader == r.value.leader))
  {
    LeaderChildren(InitialState, InitialState, root, 0, t);
  }

  /** `emplace_leader(v)` on a new document: it converts to `{"leader": v, "fields": {}}`. */
  lemma NewRecordWithLeader(v: string)
    ensures Convert(WithLeaderText(NewRecordTree(), Some(v))) == Success(Record(Some(v), FieldDict([])))
  {
    var t := WithLeaderText(NewRecordTree(), Some(v));
    assert |t.children| == 1 && t.children[0].tag == "leader";
    var st := VisitLeader(InitialState, t.children[0]);
    assert VisitChildren(st, t, 1) == Success(st);
    assert VisitChildren(InitialState, t, 0) == Success(st);
  }

  // ---------------------------------------------------------------------------
  // A nested record

  /** Once `fields` is a list, it stays a list, and no datafield or controlfield gets through. */
  lemma {:induction false} ListStaysProcess(st: State, node: Node)
    requires Valid(st) && st.record.fields.FieldList?
    ensures Process(st, node).Success? ==> Process(st, node).value.record.fields.FieldList?
    ensures node.tag == "controlfield" || node.tag == "datafield" ==> Process(st, node).Failure?
    decreases node, 2, 0
  {
    if node.tag == "record" {
      ListStaysChildren(st.(record := Record(Some(""), FieldList)), node, 0);
    } else if node.tag == "datafield" {
      ListStaysChildren(st.(subfields := Some(|st.store|), store := st.store + [[]]), node, 0);
    }
  }

  lemma {:induction false} ListStaysChildren(st: State, parent: Node, i: nat)
    requires Valid(st) && st.record.fields.FieldList? && i <= |parent.children|
    ensures VisitChildren(st, parent, i).Success? ==> VisitChildren(st, parent, i).value.record.fields.FieldList?
    decreases parent, 0, |parent.children| - i
  {
    if i < |parent.children| {
      ListStaysProcess(st, parent.children[i]);
      match Process(st, parent.children[i])
      case Failure(e) =>
      case Success(st') => ListStaysChildren(st', parent, i + 1);
    }
  }

  /** Visiting a `record` element leaves `fields` a list, whatever it held. */
  lemma RecordMakesList(st: State, rec: Node)
    requires Valid(st) && rec.tag == "record"
    ensures Process(st, rec).Success? ==> Process(st, rec).value.record.fields.FieldList?
  {
    ListStaysChildren(st.(record := Record(Some(""), FieldList)), rec, 0);
  }

  /** A nested `record` element turns `fields` into a list, whatever it held. */
  lemma NestedRecordMakesList(root: Node, rec: Node)
    requires rec.tag == "record"
    ensures Convert(AppendChild(root, rec)).Success? ==> Convert(AppendChild(root, rec)).value.fields == FieldList
  {
    ConvertAppend(root, rec);
    match VisitChildren(InitialState, root, 0)
    case Failure(e) =>
    case Success(st) => RecordMakesList(st, rec);
  }

  /** After a nested `record`, a controlfield or a datafield makes the conversion fail. */
  lemma FieldAfterNestedRecordFails(root: Node, rec: Node, c: Node)
    requires rec.tag == "record" && (c.tag == "controlfield" || c.tag == "datafield")
    ensures Convert(AppendChild(AppendChild(root, rec), c)).Failure?
  {
    var r1 := VisitChildren(InitialState, AppendChild(root, rec), 0);
    ConvertAppend(AppendChild(root, rec), c);
    VisitChildrenAppend(InitialState, root, rec, 0);
    assert r1 == Then(VisitChildren(InitialState, root, 0), rec);
    match VisitChildren(InitialState, root, 0)
    case Failure(e) =>
    case Success(st) =>
      RecordMakesList(st, rec);
      match Process(st, rec)
      case Failure(e) =>
      case Success(st') => ListStaysProcess(st', c);
  }

  /** After a nested record that converts, a `controlfield` raises the `TypeError` of `fields[tag] = ...` on a list. */
  lemma ControlfieldAfterNestedRecord(root: Node, rec: Node, c: Node)
    requires rec.tag == "record" && c.tag == "controlfield"
    requires Convert(AppendChild(root, rec)).Success?
    ensures Convert(AppendChild(AppendChild(root, rec), c)) == Failure(FieldsNotADict(Attr(c, "tag")))
  {
    NestedRecordMakesList(root, rec);
    ConvertAppendControlfield(AppendChild(root, rec), c);
  }

  /** The same for a datafield of subfields: `append` raises the `TypeError` of `fields[tag]` on a list. */
  lemma DatafieldAfterNestedRecord(root: Node, rec: Node, df: Node)
    requires rec.tag == "record" && df.tag == "datafield" && AllSubfields(df.children)
    requires Convert(AppendChild(root, rec)).Success?
    ensures Convert(AppendChild(AppendChild(root, rec), df)) == Failure(FieldsNotADict(Attr(df, "tag")))
  {
    ConvertAppend(AppendChild(root, rec), df);
    VisitChildrenAppend(InitialState, root, rec, 0);
    match VisitChildren(InitialState, root, 0)
    case Failure(e) =>
    case Success(st) =>
      RecordMakesList(st, rec);
      match Process(st, rec)
      case Failure(e) =>
      case Success(st') =>
        ProcessDatafield(st', df);
  }

  // ---------------------------------------------------------------------------
  // Dispatch

  /** The local names that have a `visit_` method. */
  predicate Handled(tag: string) {
    tag == "record" || tag == "leader" || tag == "controlfield" || tag == "datafield" || tag == "subfield"
  }

  /** A child with any other local name makes the conversion fail with an error naming it. */
  lemma UnsupportedChildFails(root: Node, x: Node)
    requires !Handled(x.tag)
    ensures Convert(AppendChild(root, x))
         == match Convert(root) case Failure(e) => Failure(e) case Success(_) => Failure(UnsupportedElement(x.tag))
  {
    ConvertAppend(root, x);
  }

  /** An unsupported child of a nested `record` fails in the same way, once the earlier children succeed. */
  lemma UnsupportedInRecordFails(st: State, rec: Node, x: Node)
    requires Valid(st) && rec.tag == "record" && !Handled(x.tag)
    ensures Process(st, AppendChild(rec, x))
         == match Process(st, rec) case Failure(e) => Failure(e) case Success(_) => Failure(UnsupportedElement(x.tag))
  {
    VisitChildrenAppend(st.(record := Record(Some(""), FieldList)), rec, x, 0);
  }

  /** An unsupported child of a datafield, after its subfields, makes the datafield fail with an error naming it. */
  lemma UnsupportedInDatafieldFails(st: State, df: Node, x: Node)
    requires Valid(st) && df.tag == "datafield" && AllSubfields(df.children) && !Handled(x.tag)
    ensures Process(st, AppendChild(df, x)) == Failure(UnsupportedElement(x.tag))
  {
    var st1 := st.(subfields := Some(|st.store|), store := st.store + [[]]);
    assert df.children[0..] == df.children;
    VisitSubfields(st1, df, 0);
    VisitChildrenAppend(st1, df, x, 0);
  }

  lemma {:induction false} VisitedChildrenHandled(st: State, parent: Node, i: nat)
    requires Valid(st) && i <= |parent.children|
    ensures VisitChildren(st, parent, i).Success? ==>
      forall j :: i <= j < |parent.children| ==> Handled(parent.children[j].tag)
    decreases |parent.children| - i
  {
    if i < |parent.children| {
      match Process(st, parent.children[i])
      case Failure(e) =>
      case Success(st') => VisitedChildrenHandled(st', parent, i + 1);
    }
  }

  /** A record that converts has only children with a `visit_` method. */
  lemma ConvertedChildrenHandled(root: Node)
    ensures Convert(root).Success? ==> forall c :: c in root.children ==> Handled(c.tag)
  {
    VisitedChildrenHandled(InitialState, root, 0);
  }

  /**
   * A leader, a controlfield or a subfield is visited without looking at its
   * children: whatever is below it, even an element nothing handles, is ignored.
   */
  lemma LeafChildrenIgnored(st: State, node: Node, cs: seq<Node>)
    requires Valid(st) && (node.tag == "leader" || node.tag == "controlfield" || node.tag == "subfield")
    ensures Process(st, node.(children := cs)) == Process(st, node)
  {
  }

  // ---------------------------------------------------------------------------
  // Subfields outside a datafield

  /** Only leaders and controlfields come before child `k`. */
  predicate OnlyLeadersAndControlfieldsBefore(cs: seq<Node>, k: nat)
    requires k <= |cs|
  {
    forall j :: 0 <= j < k ==> cs[j].tag == "leader" || cs[j].tag == "controlfield"
  }

  /**
   * From a state with a fields dict and no subfields attribute, a walk over
   * leaders and controlfields reaches the subfield at `k`, which fails.
   */
  lemma {:induction false} LeadingWalk(st: State, root: Node, i: nat, k: nat)
    requires Valid(st) && st.subfields.None? && st.record.fields.FieldDict?
    requires i <= k < |root.children| && root.children[k].tag == "subfield"
    requires OnlyLeadersAndControlfieldsBefore(root.children, k)
    ensures VisitChildren(st, root, i) == Failure(NoSubfieldAccumulator)
    decreases k - i
  {
    var c := root.children[i];
    if i < k {
      assert c.tag == "leader" || c.tag == "controlfield";
      var st' := Process(st, c).value;
      assert st'.subfields.None? && st'.record.fields.FieldDict?;
      LeadingWalk(st', root, i + 1, k);
    }
  }

  /**
   * A subfield before any datafield, with only leaders and controlfields
   * before it, finds no subfields dict: `AttributeError`.
   */
  lemma LeadingSubfieldFails(root: Node, k: nat)
    requires k < |root.children| && root.children[k].tag == "subfield"
    requires OnlyLeadersAndControlfieldsBefore(root.children, k)
    ensures Convert(root) == Failure(NoSubfieldAccumulator)
  {
    LeadingWalk(InitialState, root, 0, k);
  }

  /** The subfields dict after one more subfield. */
  lemma {:induction false} SubfieldsFromSnoc(d: SubfieldDict, cs: seq<Node>, c: Node)
    ensures SubfieldsFrom(d, cs + [c]) == AddSubfieldText(SubfieldsFrom(d, cs), Attr(c, "code"), c.text)
    decreases cs
  {
    if cs == [] {
      assert [c][1..] == [];
      assert ([] + [c]) == [c];
    } else {
      assert (cs + [c])[0] == cs[0] && (cs + [c])[1..] == cs[1..] + [c];
      SubfieldsFromSnoc(AddSubfieldText(d, Attr(cs[0], "code"), cs[0].text), cs[1..], c);
    }
  }

  /** `append` reads only the size of the store, not the dicts in it. */
  lemma AppendIgnoresDicts(st: State, store: seq<SubfieldDict>, tag: Key, field: Entry<nat>)
    requires Valid(st) && field.subfields < |st.store| && |store| == |st.store|
    ensures Valid(st.(store := store))
    ensures Append(st.(store := store), tag, field)
         == match Append(st, tag, field) case Failure(e) => Failure(e) case Success(r) => Success(r.(store := store))
  {
  }

  /** A subfield right after `append`: its text goes to the dict the new entry refers to. */
  lemma AppendThenSubfield(st: State, tag: Key, field: Entry<nat>, sf: Node)
    requires Valid(st) && st.subfields.Some? && field.subfields < |st.store| && sf.tag == "subfield"
    ensures Append(st, tag, field).Success? ==> Valid(Append(st, tag, field).value)
    ensures var n := st.subfields.value;
      var store := st.store[n := AddSubfieldText(st.store[n], Attr(sf, "code"), sf.text)];
      && Valid(st.(store := store))
      && Then(Append(st, tag, field), sf) == Append(st.(store := store), tag, field)
  {
    var n := st.subfields.value;
    var store := st.store[n := AddSubfieldText(st.store[n], Attr(sf, "code"), sf.text)];
    AppendIgnoresDicts(st, store, tag, field);
    match Append(st, tag, field)
    case Failure(e) =>
    case Success(r) =>
      assert r.subfields == Some(n) && r.store == st.store;
      ProcessSubfield(r, sf);
  }

  lemma SnocUpdate<T>(s: seq<T>, x: T, y: T)
    ensures (s + [x])[|s| := y] == s + [y]
  {
  }

  /** `visit_datafield` on a datafield with one more subfield, in terms of the original datafield. */
  lemma ProcessAppendedDatafield(st: State, df: Node, sf: Node)
    requires Valid(st) && df.tag == "datafield" && AllSubfields(df.children) && sf.tag == "subfield"
    ensures var n := |st.store|;
      var st2 := st.(subfields := Some(n), store := st.store + [SubfieldsOf(df.children + [sf])]);
      && Valid(st2)
      && Process(st, AppendChild(df, sf)) == Append(st2, Attr(df, "tag"), Entry(Indicator(df, "ind1"), Indicator(df, "ind2"), n))
  {
    var df' := AppendChild(df, sf);
    assert AllSubfields(df'.children);
    ProcessDatafield(st, df');
    assert Attr(df', "tag") == Attr(df, "tag");
    assert Indicator(df', "ind1") == Indicator(df, "ind1") && Indicator(df', "ind2") == Indicator(df, "ind2");
  }

  /** On the visitor state: a subfield after a datafield extends that datafield's dict. */
  lemma StrayAfterDatafield(st: State, df: Node, sf: Node)
    requires Valid(st) && df.tag == "datafield" && AllSubfields(df.children) && sf.tag == "subfield"
    ensures Process(st, df).Success? ==> Valid(Process(st, df).value)
    ensures Then(Process(st, df), sf) == Process(st, AppendChild(df, sf))
  {
    var n := |st.store|;
    var tag := Attr(df, "tag");
    var field := Entry(Indicator(df, "ind1"), Indicator(df, "ind2"), n);
    var d := SubfieldsOf(df.children);
    var d' := AddSubfieldText(d, Attr(sf, "code"), sf.text);
    var st2 := st.(subfields := Some(n), store := st.store + [d]);
    ProcessDatafield(st, df);
    ProcessAppendedDatafield(st, df, sf);
    SubfieldsFromSnoc([], df.children, sf);
    assert SubfieldsOf(df.children + [sf]) == d';
    AppendThenSubfield(st2, tag, field, sf);
    SnocUpdate(st.store, d, d');
  }

  /**
   * A stray subfield right after a datafield is added to that datafield's
   * subfields: `self.subfields` still refers to the dict in its entry.
   */
  lemma StraySubfieldJoinsDatafield(root: Node, df: Node, sf: Node)
    requires df.tag == "datafield" && AllSubfields(df.children) && sf.tag == "subfield"
    ensures Convert(AppendChild(AppendChild(root, df), sf)) == Convert(AppendChild(root, AppendChild(df, sf)))
  {
    ConvertAppend(AppendChild(root, df), sf);
    VisitChildrenAppend(InitialState, root, df, 0);
    ConvertAppend(root, AppendChild(df, sf));
    match VisitChildren(InitialState, root, 0)
    case Failure(e) =>
    case Success(st) =>
      StrayAfterDatafield(st, df, sf);
  }
}
