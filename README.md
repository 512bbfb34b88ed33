# MARC21 record document and its XML-to-mij conversion, in Dafny

This project models the record core of `invenio-records-marc21`, in
`invenio_records_marc21/services/record/metadata.py`. It has two parts.

- **`XmlToJsonVisitor` and `convert_marc21xml_to_json`.** The visitor walks an
  element tree and dispatches each child on its local name to `visit_record`,
  `visit_leader`, `visit_controlfield`, `visit_datafield` or `visit_subfield`.
  It builds the "mij" form of a record: `{"leader": ..., "fields": {tag:
  text | [{"ind1", "ind2", "subfields": {code: [text, ...]}}, ...]}}`.
- **`Marc21Metadata`.** This document owns one element tree. It starts as a
  `record` element with one `leader` child. It is edited in place with
  `emplace_leader`, `emplace_controlfield`, `emplace_field` and
  `emplace_unique_field`. It answers `contains`, and exposes a `json` view
  and type-checked setters.

## Layout

| file | module | what it holds |
|---|---|---|
| wrappers.dfy | Wrappers | `Option`, `Result` |
| assoc.dfy | Assoc | insertion-ordered Python dicts as association lists: `Get`, `Set` (`d[k] = v`) |
| xml.dfy | Xml | element trees (`Node`), document order (`Preorder`), paths to nodes, detaching a node |
| document.dfy | Document | the elements the document builds, and the leader rewrite |
| conversion.dfy | Conversion | the conversion as functions over a visitor state |
| visitor.dfy | Visitor | `XmlToJsonVisitor` as a class whose methods update its fields, proved equal to those functions |
| conversion_props.dfy | ConversionProps | what appending a controlfield or datafield does to the mij form |
| conversion_quirks.dfy | ConversionQuirks | leader rewrites, nested records, dispatch, stray subfields |
| conversion_keys.dfy | ConversionKeys | every dict of the converted record has each key once |
| xpath.dfy | XPath | the three XPath queries of the document (one in `contains`, two in `emplace_unique_field`), with soundness, completeness and the first hit in document order |
| emplace.dfy | Emplace | the tree after `emplace_unique_field`, and its three outcomes |
| pyvalue.dfy | PyValue | Python values, the mij form encoded as the nested dicts the `json` property returns, and a decoder of this model's own that shows the encoding loses nothing |
| metadata.dfy | Metadata | `Marc21Metadata` as a class over its `_xml`, `_json` and `_etree` fields |

### Modelling decisions

- **Dicts.** Python dicts keep insertion order, so they are `seq<(K, V)>`.
  `Get` returns the first match. `Set` replaces an entry in place or appends a
  new one.
- **Keys and texts.** `node.get("tag")`, `node.get("code")` and `node.text`
  may be `None`, so fields keys, subfield codes and texts are
  `Option<string>`.
- **Shared subfields dict.** The visitor's `self.subfields` is a reference to
  a dict, and a datafield's entry holds the same dict. The model keeps every
  dict the visitor creates in a store (`State.store`), and entries hold an
  index into it. `Resolve` replaces each index by its dict, which gives what
  the caller sees. This is how the model captures three behaviours:
  - a stray subfield after a datafield joins that datafield's dict;
  - a nested datafield makes the outer entry share the inner dict;
  - a subfield before any datafield raises `AttributeError`
    (`NoSubfieldAccumulator`).
- **Element trees.** A tree is a value: `Node(tag, attrs, text, children)`,
  with tags as local names. An edit of the document replaces `etree` by the
  edited tree. `emplace_unique_field` re-appends an existing datafield, which
  in lxml moves it. The model detaches that datafield at its path
  (`RemoveAt`) and appends it to the root.
- **Opaque services.** XML parsing and serialisation are parameters of the
  `xml` setter and getter.

### Behaviour the model follows from the code

- The root element is never dispatched. Only its children are, so a root of
  any name converts (`ConvertIgnoresRoot`).
- Only `record` and `datafield` elements have their children visited.
  Anything below a leader, a controlfield or a subfield is ignored, even an
  element no `visit_` method handles (`LeafChildrenIgnored`).
- A missing indicator becomes `"_"`, and every space in an indicator becomes
  `"_"`.
- `visit_record` resets `fields` to an empty *list*. After a nested `record`,
  every controlfield or datafield makes the conversion fail. A controlfield,
  or a datafield whose children are subfields, raises `TypeError`
  (`ControlfieldAfterNestedRecord`, `DatafieldAfterNestedRecord`). A
  datafield whose subfields are followed by an unsupported child raises
  `ValueError` for that child first (`UnsupportedInDatafieldFails`).
- `emplace_controlfield` always appends a new element. The converted record
  keeps the text of the last controlfield with each tag that is dispatched.
  A controlfield below a leader, a controlfield or a subfield is never
  visited (`LeafChildrenIgnored`).
- `contains` compares only the subfield with the code that comes first in
  document order below a matching datafield (`ContainsIff`,
  `ContainsLooksAtFirstOnly`).
- The existence check of `emplace_unique_field` is a document-wide lookup by
  subfield code. It ignores the value, the tag and the indicators.
- The error for an unknown element names its local name. Trees carry no
  namespaces here, so the namespace part of the message is not modelled.

## Model

| member | source | states |
|---|---|---|
| Assoc.Get | invenio_records_marc21/services/record/metadata.py:50-55 | a lookup finds a value exactly when the key is among the dict's keys |
| Assoc.Set | invenio_records_marc21/services/record/metadata.py:46-48 | after `d[k] = v`, `k` maps to `v` and every other key keeps its value |
| Assoc.SetKeys | invenio_records_marc21/services/record/metadata.py:46-55 | assigning an existing key keeps the key order; a new key goes last |
| Assoc.SetSet | invenio_records_marc21/services/record/metadata.py:50-55 | two assignments to one key leave the last value, as `append` relies on for a new tag |
| Conversion.Underscored | invenio_records_marc21/services/record/metadata.py:81-82 | `replace(" ", "_")`: same length, every space becomes `_`, every other character is kept |
| Conversion.Indicator | invenio_records_marc21/services/record/metadata.py:81-82 | a missing indicator is `"_"`; a present one has its spaces replaced |
| Conversion.AppendString | invenio_records_marc21/services/record/metadata.py:46-48 | `fields[tag] = value` fails exactly when `fields` is a list; it keeps the state valid and the dicts unchanged |
| Conversion.Append | invenio_records_marc21/services/record/metadata.py:50-55 | `append` keeps every reference in range and never touches a subfields dict |
| Conversion.VisitLeader | invenio_records_marc21/services/record/metadata.py:66-68 | the leader becomes the element's text; nothing else changes |
| Conversion.VisitControlfield | invenio_records_marc21/services/record/metadata.py:70-73 | fails exactly when `fields` is a list; otherwise the tag maps to the element's text, every other tag keeps its value, and the leader, the subfields reference and the dicts stay |
| Conversion.AddSubfieldText | invenio_records_marc21/services/record/metadata.py:91-98 | the text is appended to the list under the code (a new code gets a new list); other codes are unchanged |
| Conversion.VisitSubfield | invenio_records_marc21/services/record/metadata.py:91-98 | fails exactly when no subfields dict has been set; otherwise the record, the subfields reference and every other dict stay as they were, and the current dict gets the text under the code |
| Conversion.VisitRecord | invenio_records_marc21/services/record/metadata.py:61-64 | the reset to a list followed by the walk of the children; a successful visit keeps every reference valid and only adds dicts (that `fields` ends a list is `ConversionQuirks.NestedRecordMakesList`) |
| Conversion.Process | invenio_records_marc21/services/record/metadata.py:28-39 | dispatch on the local name; every successful step keeps references valid and only adds dicts |
| Conversion.VisitDatafield | invenio_records_marc21/services/record/metadata.py:75-89 | a datafield always creates a new subfields dict |
| Conversion.VisitChildren | invenio_records_marc21/services/record/metadata.py:41-44 | `visit` stops at the first error, and a successful walk keeps the state valid |
| Conversion.Resolve | invenio_records_marc21/services/record/metadata.py:57-59 | the record the visitor returns: the same leader, a list exactly when `fields` is a list, and the same tags in the same order |
| Conversion.Convert | invenio_records_marc21/services/record/metadata.py:101-105 | a root without children converts to the fresh visitor's `{"leader": "", "fields": {}}` |
| Visitor.XmlToJsonVisitor.constructor | invenio_records_marc21/services/record/metadata.py:24-26 | the visitor starts from `{"leader": "", "fields": {}}` with no subfields dict |
| Visitor.XmlToJsonVisitor.AppendString | invenio_records_marc21/services/record/metadata.py:46-48 | the method's error and new state are those of `Conversion.AppendString` |
| Visitor.XmlToJsonVisitor.Append | invenio_records_marc21/services/record/metadata.py:50-55 | the method's error and new state are those of `Conversion.Append` |
| Visitor.XmlToJsonVisitor.GetJsonRecord | invenio_records_marc21/services/record/metadata.py:57-59 | returns the record with each entry showing the dict it refers to |
| Visitor.XmlToJsonVisitor.VisitRecord | invenio_records_marc21/services/record/metadata.py:61-64 | agrees with `Conversion.VisitRecord` |
| Visitor.XmlToJsonVisitor.VisitLeader | invenio_records_marc21/services/record/metadata.py:66-68 | agrees with `Conversion.VisitLeader` |
| Visitor.XmlToJsonVisitor.VisitControlfield | invenio_records_marc21/services/record/metadata.py:70-73 | agrees with `Conversion.VisitControlfield` |
| Visitor.XmlToJsonVisitor.VisitDatafield | invenio_records_marc21/services/record/metadata.py:75-89 | agrees with `Conversion.VisitDatafield` |
| Visitor.XmlToJsonVisitor.VisitSubfield | invenio_records_marc21/services/record/metadata.py:91-98 | agrees with `Conversion.VisitSubfield` |
| Visitor.XmlToJsonVisitor.Process | invenio_records_marc21/services/record/metadata.py:28-39 | agrees with `Conversion.Process` |
| Visitor.XmlToJsonVisitor.Visit | invenio_records_marc21/services/record/metadata.py:41-44 | the loop over the children agrees with `Conversion.VisitChildren` |
| Visitor.ConvertMarc21XmlToJson | invenio_records_marc21/services/record/metadata.py:101-105 | a fresh visitor visiting the root returns `Conversion.Convert(root)` |
| ConversionProps.VisitChildrenAppend | invenio_records_marc21/services/record/metadata.py:41-44 | visiting one more child is visiting the old children, then that child |
| ConversionProps.ConvertIgnoresRoot | invenio_records_marc21/services/record/metadata.py:101-105 | two roots with the same children convert alike, whatever their tags |
| ConversionProps.NewRecordConverts | invenio_records_marc21/services/record/metadata.py:111-126 | a new document converts to `{"leader": "00000nam a2200000zca4500", "fields": {}}` |
| ConversionProps.ConvertAppendControlfield | invenio_records_marc21/services/record/metadata.py:46-48 | an appended controlfield sets `fields[tag]` to its text, or raises on a list |
| ConversionProps.EmplacedControlfieldWins | invenio_records_marc21/services/record/metadata.py:190-198 | after `emplace_controlfield(tag, value)`, `fields[tag]` is `value`; the leader and the other tags are unchanged |
| ConversionProps.SubfieldsFromGet | invenio_records_marc21/services/record/metadata.py:91-98 | visiting subfields appends, under each code, the texts with that code, in document order |
| ConversionProps.SubfieldsCollectedInOrder | invenio_records_marc21/services/record/metadata.py:91-98 | a datafield's dict maps each code to the texts of its subfields with that code, in order; a code no subfield has is absent |
| ConversionProps.VisitSubfields | invenio_records_marc21/services/record/metadata.py:91-98 | subfields change only the current subfields dict |
| ConversionProps.ProcessDatafield | invenio_records_marc21/services/record/metadata.py:75-89 | a datafield of subfields appends an entry referring to a new dict that holds them |
| ConversionProps.ResolveAppendNew | invenio_records_marc21/services/record/metadata.py:50-55 | in mij form, `append` starts a list under a new tag, extends a list, or raises on a controlfield's text or on a list of fields |
| ConversionProps.ConvertAppendDatafield | invenio_records_marc21/services/record/metadata.py:75-89 | an appended datafield of subfields appends its entry under its tag in the converted record |
| ConversionProps.EmplacedFieldAppendsEntry | invenio_records_marc21/services/record/metadata.py:200-213 | after `emplace_field`, the list under the tag ends with an entry with the normalised indicators and `{code: [value]}` |
| ConversionProps.DatafieldsExtendList | invenio_records_marc21/services/record/metadata.py:50-55 | datafields sharing a tag extend its list in document order; the leader and the other tags are unchanged |
| ConversionProps.DatafieldsMakeList | invenio_records_marc21/services/record/metadata.py:50-55 | n datafields with a tag new to the record give a list of exactly n entries, in document order |
| ConversionQuirks.LeaderChildren | invenio_records_marc21/services/record/metadata.py:66-68 | rewriting leader texts changes a walk's outcome only in the leader |
| ConversionQuirks.ConvertWithLeaderText | invenio_records_marc21/services/record/metadata.py:182-188 | after `emplace_leader`, conversion gives the same error or the same fields; the leader is the new text or unchanged |
| ConversionQuirks.NewRecordWithLeader | invenio_records_marc21/services/record/metadata.py:182-188 | `emplace_leader(v)` on a new document gives `{"leader": v, "fields": {}}` |
| ConversionQuirks.ListStaysChildren | invenio_records_marc21/services/record/metadata.py:61-64 | once `fields` is a list it stays a list |
| ConversionQuirks.ListStaysProcess | invenio_records_marc21/services/record/metadata.py:46-55 | with `fields` a list, no controlfield or datafield succeeds |
| ConversionQuirks.NestedRecordMakesList | invenio_records_marc21/services/record/metadata.py:61-64 | a nested `record` that converts leaves `fields` an empty list |
| ConversionQuirks.FieldAfterNestedRecordFails | invenio_records_marc21/services/record/metadata.py:61-64 | a controlfield or datafield after a nested `record` makes the conversion fail |
| ConversionQuirks.ControlfieldAfterNestedRecord | invenio_records_marc21/services/record/metadata.py:46-48 | for a controlfield that failure is the `TypeError` of `fields[tag] = ...` on a list |
| ConversionQuirks.DatafieldAfterNestedRecord | invenio_records_marc21/services/record/metadata.py:50-55 | for a datafield of subfields it is the `TypeError` of `fields[tag]` on a list, raised in `append` |
| ConversionQuirks.UnsupportedChildFails | invenio_records_marc21/services/record/metadata.py:28-39 | a child with no `visit_` method makes the conversion fail with an error naming its local name |
| ConversionQuirks.UnsupportedInRecordFails | invenio_records_marc21/services/record/metadata.py:28-39 | an unsupported child of a nested `record` fails the same way, once the children before it succeed |
| ConversionQuirks.UnsupportedInDatafieldFails | invenio_records_marc21/services/record/metadata.py:28-39 | an unsupported child of a datafield, after its subfields, fails with an error naming its local name |
| ConversionQuirks.ConvertedChildrenHandled | invenio_records_marc21/services/record/metadata.py:28-44 | a tree that converts has only children with a `visit_` method |
| ConversionQuirks.LeafChildrenIgnored | invenio_records_marc21/services/record/metadata.py:66-73 | the children of a leader, controlfield or subfield are never dispatched |
| ConversionQuirks.LeadingSubfieldFails | invenio_records_marc21/services/record/metadata.py:91-98 | a root child that is a subfield, with only leaders and controlfields before it, raises `AttributeError` |
| ConversionQuirks.StraySubfieldJoinsDatafield | invenio_records_marc21/services/record/metadata.py:77-98 | a subfield right after a datafield converts as if it were that datafield's last subfield |
| ConversionKeys.UniqueProcess | invenio_records_marc21/services/record/metadata.py:28-39 | no step of the visitor gives a dict a key twice |
| ConversionKeys.ConvertKeysUnique | invenio_records_marc21/services/record/metadata.py:101-105 | in the converted record the fields dict has each tag once and every subfields dict each code once, as Python dicts do |
| Assoc.SetKeepsUniqueKeys | invenio_records_marc21/services/record/metadata.py:46-55 | `d[k] = v` never makes a key occur twice |
| Document.ControlfieldElement | invenio_records_marc21/services/record/metadata.py:196-197 | a `controlfield` element with only the `tag` attribute, the value as text and no children |
| Document.DatafieldElement | invenio_records_marc21/services/record/metadata.py:209-212 | a `datafield` with exactly the `tag`, `ind1` and `ind2` attributes, no text, and one subfield child |
| Document.SubfieldElement | invenio_records_marc21/services/record/metadata.py:210-211 | a `subfield` element with only the `code` attribute, the value as text and no children |
| Document.NewRecordTree | invenio_records_marc21/services/record/metadata.py:115-120 | the new tree: a `record` root with the namespace and type attributes and a single leader child with the default text |
| Document.WithLeaderText | invenio_records_marc21/services/record/metadata.py:187-188 | keeps the tag, attributes and number of children; a leader gets the new text |
| Document.LeadersRewritten | invenio_records_marc21/services/record/metadata.py:182-188 | every element keeps its place, tag, attributes and number of children; exactly the leaders get the new text |
| Document.WithLeaderTextTwice | invenio_records_marc21/services/record/metadata.py:182-188 | two `emplace_leader` calls amount to the last one |
| XPath.FirstDatafield | invenio_records_marc21/services/record/metadata.py:224-232 | `datafield[0]` is a path to a datafield with the tag and indicators |
| XPath.FirstDatafieldIsFirst | invenio_records_marc21/services/record/metadata.py:224-232 | no element before it in document order matches; when there is none, no element matches |
| XPath.Selected | invenio_records_marc21/services/record/metadata.py:175-179 | every node the query returns is a subfield with the code, found in document order below the root |
| XPath.Contains | invenio_records_marc21/services/record/metadata.py:168-180 | true implies a subfield with the code and the value lies below the root, so `.//subfield[@code=..]` of `emplace_unique_field` hits too |
| XPath.AnySubfield | invenio_records_marc21/services/record/metadata.py:233 | a hit names a subfield with the code below the root (the converse is `XPath.AnySubfieldIff`) |
| XPath.SelectedSound | invenio_records_marc21/services/record/metadata.py:175-179 | every node the query finds is a subfield with the code below a matching datafield (as node values; the positional statement is `XPath.SelectedHit`) |
| XPath.SelectedComplete | invenio_records_marc21/services/record/metadata.py:175-179 | every subfield with the code below a matching datafield is among the nodes found |
| XPath.SelectedHit | invenio_records_marc21/services/record/metadata.py:175-179 | every path to a subfield with the code below a matching datafield names a node the query returns |
| XPath.FirstSelected | invenio_records_marc21/services/record/metadata.py:175-180 | `element[0]` is the node of the selected path that no other selected path precedes in document order |
| XPath.ContainsIff | invenio_records_marc21/services/record/metadata.py:168-180 | `contains` holds exactly when the first selected path in document order names a subfield whose text is the value |
| XPath.ContainsLooksAtFirstOnly | invenio_records_marc21/services/record/metadata.py:180 | a matching datafield whose first subfield with the code has another value gives false, even though a later subfield has the value |
| XPath.QueryHitsIff | invenio_records_marc21/services/record/metadata.py:175-180 | the query finds something exactly when a matching datafield has a subfield with the code below it |
| XPath.AnySubfieldIff | invenio_records_marc21/services/record/metadata.py:233 | the lookup by code succeeds exactly when a subfield with the code lies anywhere in the tree |
| XPath.ContainsMeansPair | invenio_records_marc21/services/record/metadata.py:168-180 | `contains` true means a matching datafield holds a subfield with the code and value; no such pair means false (the exact condition is `ContainsIff`) |
| XPath.ContainsStableUnderAppend | invenio_records_marc21/services/record/metadata.py:175-180 | once the query finds something, appending to the root does not change the answer |
| XPath.ContainsAfterEmplaceField | invenio_records_marc21/services/record/metadata.py:200-213 | when nothing matched before, `emplace_field` makes `contains` true for what it added |
| XPath.RemoveAtNoSubfield | invenio_records_marc21/services/record/metadata.py:232-238 | moving a datafield adds no subfield with the code |
| Emplace.EmplacedUnique | invenio_records_marc21/services/record/metadata.py:215-238 | the root keeps its tag, attributes and text, gains at most one child, and when no subfield with the code existed its last child is a matching datafield whose last child is the new subfield |
| Emplace.UniqueFieldOutcomes | invenio_records_marc21/services/record/metadata.py:215-238 | the three outcomes: unchanged when the code exists; otherwise the first matching datafield gets the subfield and moves to the end; or a new datafield is appended |
| Emplace.UniqueFieldThenContains | invenio_records_marc21/services/record/metadata.py:215-238 | when it adds the subfield, `contains` then holds for it |
| Emplace.UniqueFieldLeavesCode | invenio_records_marc21/services/record/metadata.py:233-238 | afterwards a subfield with the code always exists |
| Emplace.UniqueFieldIdempotent | invenio_records_marc21/services/record/metadata.py:233-238 | a second call with the same code changes nothing, whatever the tag, indicators or value |
| PyValue.MijIso | invenio_records_marc21/services/record/metadata.py:122-126 | about this model's encoding of the mij record as the Python dict under `"metadata"` (the source has no decoder): the encoding is one-to-one, so the dict `json` returns determines the converted record |
| PyValue.JsonView | invenio_records_marc21/services/record/metadata.py:125 | `{"metadata": mij}`: a one-key dict under `"metadata"` from which this model's decoder gives back the mij record |
| Metadata.Marc21Metadata.constructor | invenio_records_marc21/services/record/metadata.py:111-120 | `_xml` is empty, `_json` an empty dict, `_etree` the new record tree |
| Metadata.Marc21Metadata.GetJson | invenio_records_marc21/services/record/metadata.py:122-126 | returns and stores `{"metadata": mij}` of the tree; a conversion error propagates and `_json` stays |
| Metadata.Marc21Metadata.SetJson | invenio_records_marc21/services/record/metadata.py:133-138 | a dict is stored as given; anything else raises `TypeError` and changes nothing |
| Metadata.Marc21Metadata.GetXml | invenio_records_marc21/services/record/metadata.py:140-144 | stores and returns the serialised tree |
| Metadata.Marc21Metadata.SetXml | invenio_records_marc21/services/record/metadata.py:146-153 | a non-string raises `TypeError`; a string that does not parse changes nothing; otherwise the parsed tree and the string are stored |
| Metadata.Marc21Metadata.Load | invenio_records_marc21/services/record/metadata.py:155-157 | the given tree becomes the document's tree |
| Metadata.Marc21Metadata.Contains | invenio_records_marc21/services/record/metadata.py:168-180 | the XPath answer: true exactly when the first selected subfield in document order has the value; true implies a matching pair with the value; no matching pair gives false |
| Metadata.Marc21Metadata.EmplaceLeader | invenio_records_marc21/services/record/metadata.py:182-188 | the loop over the children rewrites every leader to the value |
| Metadata.Marc21Metadata.EmplaceControlfield | invenio_records_marc21/services/record/metadata.py:190-198 | a controlfield with the tag and value becomes the root's last child; the earlier children are unchanged |
| Metadata.Marc21Metadata.EmplaceField | invenio_records_marc21/services/record/metadata.py:200-213 | a datafield with the tag, the indicators and one subfield with the code and value becomes the root's last child |
| Metadata.Marc21Metadata.EmplaceUniqueField | invenio_records_marc21/services/record/metadata.py:215-238 | the new tree is `Emplace.EmplacedUnique` of the old one |
| Metadata.NewDocumentJson | invenio_records_marc21/services/record/metadata.py:111-126 | a new document's `json` is `{"metadata": {"leader": "00000nam a2200000zca4500", "fields": {}}}` |
| Metadata.TitleTreeConverts | invenio_records_marc21/services/record/metadata.py:190-213 | after controlfield 001 and datafield 245, the fields are `{"001": "12345", "245": [{"ind1": "1", "ind2": "0", "subfields": {"a": ["Title"]}}]}` |
| Metadata.SessionContains | invenio_records_marc21/services/record/metadata.py:168-180 | after that datafield, `contains` holds for value "Title" and not for "Y" |
| Metadata.Session | invenio_records_marc21/services/record/metadata.py:111-213 | the same session run on the document object gives those `json` views and `contains` answers |

## Left out

- XML parsing and serialisation (`_to_xml_tree_from_string`, `_to_string`, pretty-printing) are calls into lxml. They are the `parse` and `serialize` parameters of `SetXml` and `GetXml`.
- `is_valid_marc21_xml_string` is not modelled. It reads an XSD file from disk and calls lxml's schema validator.
- Namespaced trees are not modelled: tags are local names. This covers trees loaded with `load` or the `xml` setter, the namespace in the unknown-element message, and attribute namespaces.
- The model has no comments, processing instructions or tail text. `for child in node` would also yield comments and processing instructions.
- XPath injection is not modelled: a tag, indicator or code containing `'` would break the query string. The `ref_df` and `ref_sf` dicts are datatypes with exactly the keys the query uses, so missing or extra keys (`KeyError`, a duplicate `code` argument) are not modelled.
- Metadata.Marc21Metadata.Contains: returns `false` where the source returns the empty list, which is equally falsy.
- The `etree` getter is not modelled. It hands out the live tree, and `load` keeps a reference to the caller's tree. Trees are values here, so changes made through such shared references are not modelled.
- Metadata.Marc21Metadata.EmplaceLeader: loops over the root's direct children and rewrites each subtree as a value. It does not set `.text` element by element in `iter("leader")` order. The result is the same tree.
- The visitor's state after an exception is not specified, because the exception discards the visitor.
- ConversionQuirks.ConvertWithLeaderText: this is weaker than "the leader becomes the new text". Whether the new text shows depends on whether some leader is visited after the last nested `record`. For a new document, `ConversionQuirks.NewRecordWithLeader` states the exact result.
- A nested datafield makes the outer entry share the inner dict. The model represents this through the store, but no lemma states it separately.
- Metadata.Marc21Metadata.EmplaceControlfield, Metadata.Marc21Metadata.EmplaceField, Metadata.Marc21Metadata.EmplaceUniqueField, Metadata.Marc21Metadata.EmplaceLeader: take strings, so the `TypeError` lxml raises for a tag, attribute or text that is not a string is not modelled.
- Metadata.Marc21Metadata.EmplaceControlfield, Metadata.Marc21Metadata.EmplaceField, Metadata.Marc21Metadata.EmplaceUniqueField, Metadata.Marc21Metadata.EmplaceLeader: accept any string, so the `ValueError` lxml raises for NUL bytes, control characters or strings that are not valid XML in a tag, attribute value or text is not modelled.
- Metadata.Marc21Metadata.EmplaceControlfield, Metadata.Marc21Metadata.EmplaceField, Metadata.Marc21Metadata.EmplaceUniqueField, Metadata.Marc21Metadata.EmplaceLeader: have no default arguments. Callers pass every argument; a Python call that relies on `tag=""`, `ind1=" "`, `ind2=" "`, `code=""` or `value=""` corresponds to passing those values.
- Metadata.Marc21Metadata.GetJson: returns the new `_json` dict as a value. In Python the caller gets the stored dict itself, so a caller's later mutation of it shows in `_json` until the next `json` read. The model does not capture that aliasing. The same holds for the dict given to the `json` setter.
- PyValue.MijIso: this is a property of this model's own encoding and decoder. The source only builds the dict and never decodes it.
- PyValue.MijIso: compares dicts as ordered lists of pairs. Python's `==` on dicts ignores order, and the `json` setter stores any dict without looking inside it.
- `services.py` (the record service), the UI serializers, the resource-type enum and the tests are not part of this model.
