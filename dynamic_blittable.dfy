/**
 * The dynamic view an index's map function has of a document: member
 * lookup by name over the document's blittable data, with fallbacks to
 * the document's own key, etag and last-modified time, and the Null and
 * ExplicitNull sentinels for missing and null members. Names are matched
 * against a precomputed table by a cheap length-and-prefix pre-check
 * before an ordinal comparison.
 */
module DynamicBlittable {
  import opened Wrappers
  import opened DotNet

  // ---------------------------------------------------------------------
  // Ordinal string comparison
  // ---------------------------------------------------------------------

  /**
   * The sign of String.Compare(a, b, StringComparison.Ordinal): code units
   * compared in order, a proper prefix ordered first.
   */
  function OrdinalCompare(a: Str, b: Str): (r: int)
    ensures -1 <= r <= 1
  {
    if a == [] && b == [] then 0
    else if a == [] then -1
    else if b == [] then 1
    else if a[0] < b[0] then -1
    else if a[0] > b[0] then 1
    else OrdinalCompare(a[1..], b[1..])
  }

  /** Ordinal comparison yields 0 exactly for equal strings, and swapping the operands flips its sign. */
  lemma {:induction false} OrdinalCompareZero(a: Str, b: Str)
    ensures OrdinalCompare(a, b) == 0 <==> a == b
    ensures OrdinalCompare(b, a) == -OrdinalCompare(a, b)
    decreases |a|
  {
    if a != [] && b != [] && a[0] == b[0] {
      OrdinalCompareZero(a[1..], b[1..]);
      if a[1..] == b[1..] {
        assert a == [a[0]] + a[1..] && b == [b[0]] + b[1..];
      }
    }
  }

  // ---------------------------------------------------------------------
  // The precomputed table
  // ---------------------------------------------------------------------

  /**
   * The seven names the lookup treats specially: the document-id index
   * field, the metadata's id property, the HasValue pseudo-member, the
   * metadata key, and the metadata's id, etag and last-modified names.
   * Their values are defined by the Constants class, which is not part of
   * this model.
   */
  datatype FieldNames = FieldNames(
    documentIdFieldName: Str,
    idProperty: Str,
    hasValue: Str,
    metadataKey: Str,
    metadataId: Str,
    metadataEtag: Str,
    metadataLastModified: Str)

  const DocumentIdFieldNameIndex: nat := 0
  const MetadataIdPropertyIndex: nat := 1
  const MetadataHasValueIndex: nat := 2
  const MetadataKeyIndex: nat := 3
  const MetadataIdIndex: nat := 4
  const MetadataEtagIndex: nat := 5
  const MetadataLastModifiedIndex: nat := 6

  /** A table entry: the name, the position of the character checked first, that character, and the length. */
  datatype CompareKey = CompareKey(key: Str, prefixGroupIndex: nat, prefixValue: Char16, length: nat)

  function MakeCompareKey(key: Str, prefixGroup: nat): (k: CompareKey)
    requires prefixGroup < |key|
    ensures k.key == key && k.length == |key| && k.prefixGroupIndex < k.length
    ensures k.prefixValue == key[k.prefixGroupIndex]
  {
    CompareKey(key, prefixGroup, key[prefixGroup], |key|)
  }

  /**
   * What the static constructor needs of the names: each is long enough
   * for its prefix group (the first character for the first four, the
   * second for the three '@'-prefixed metadata names).
   */
  predicate TableBuildable(n: FieldNames)
  {
    && |n.documentIdFieldName| > 0 && |n.idProperty| > 0 && |n.hasValue| > 0 && |n.metadataKey| > 0
    && |n.metadataId| > 1 && |n.metadataEtag| > 1 && |n.metadataLastModified| > 1
  }

  /** The precomputed table, in the order of the index constants. */
  function Table(n: FieldNames): (t: seq<CompareKey>)
    requires TableBuildable(n)
    ensures |t| == 7
    ensures t[DocumentIdFieldNameIndex].key == n.documentIdFieldName && t[MetadataIdPropertyIndex].key == n.idProperty
    ensures t[MetadataHasValueIndex].key == n.hasValue && t[MetadataKeyIndex].key == n.metadataKey
    ensures t[MetadataIdIndex].key == n.metadataId && t[MetadataEtagIndex].key == n.metadataEtag
    ensures t[MetadataLastModifiedIndex].key == n.metadataLastModified
    ensures forall i | 0 <= i < 7 :: t[i].prefixGroupIndex < t[i].length == |t[i].key| && t[i].prefixValue == t[i].key[t[i].prefixGroupIndex]
  {
    [ MakeCompareKey(n.documentIdFieldName, 0),
      MakeCompareKey(n.idProperty, 0),
      MakeCompareKey(n.hasValue, 0),
      MakeCompareKey(n.metadataKey, 0),
      MakeCompareKey(n.metadataId, 1),
      MakeCompareKey(n.metadataEtag, 1),
      MakeCompareKey(n.metadataLastModified, 1) ]
  }

  /**
   * The length and prefix checks only reject names that differ from the
   * entry; the answer is ordinal equality with the entry's name.
   */
  function FastCompare(n: FieldNames, name: Str, fieldLookup: nat): (r: bool)
    requires TableBuildable(n) && fieldLookup < 7
    ensures r <==> name == Table(n)[fieldLookup].key
  {
    var entry := Table(n)[fieldLookup];
    if |name| != entry.length then false
    else if name[entry.prefixGroupIndex] != entry.prefixValue then false
    else
      OrdinalCompareZero(name, entry.key);
      OrdinalCompare(name, entry.key) == 0
  }

  // ---------------------------------------------------------------------
  // Documents and lookup results
  // ---------------------------------------------------------------------

  /** A value stored in a blittable object; `None` in a member stands for JSON null. */
  datatype Value =
    | VString(s: Str)
    | VNumber(n: int)
    | VBool(b: bool)
    | VDate(ticks: int)
    | VArray(items: seq<Option<Value>>)
    | VObject(props: map<Str, Option<Value>>)

  /** A blittable object: its members by name. */
  type Blittable = map<Str, Option<Value>>

  /** A stored document: its key, etag, last-modified time (in ticks) and data. */
  datatype Document = Document(key: Str, etag: Int64, lastModified: int, data: Blittable)

  /** What a member lookup hands to the map function. */
  datatype Dyn =
    | NullObject                                   // DynamicNullObject.Null: no such member
    | ExplicitNullObject                           // DynamicNullObject.ExplicitNull: a member whose value is null
    | AsStored(member: Option<Value>)              // the stored member, not converted
    | Boolean(b: bool)                             // the "found" flag answered for the HasValue name
    | Converted(value: Value)                      // a non-object value after TypeConverter.ToDynamicType
    | Wrapped(props: Blittable, doc: Option<Document>) // a nested DynamicBlittableJson over an object

  /** TryGetByName's answer: whether it found something, and what. */
  datatype Lookup = Lookup(found: bool, result: Dyn)

  datatype Error =
    | InvalidCast              // the metadata member is not an object
    | CouldNotGet(key: Str)    // the indexer's InvalidOperationException

  /** TypeConverter.ToDynamicType as far as the lookup depends on it: objects get a dynamic wrapper without a document. */
  function ToDynamicType(v: Value): (d: Dyn)
    ensures d.Wrapped? <==> v.VObject?
    ensures d.Wrapped? ==> d.props == v.props && d.doc == None
  {
    if v.VObject? then Wrapped(v.props, None) else Converted(v)
  }

  /**
   * The member a name resolves to apart from the id names: the stored one,
   * or, when the data lacks it and a document is attached, the document's
   * key, etag or last-modified time for the three metadata names. `None`
   * when nothing is found; `Some(None)` for a member that is null.
   */
  function Member(n: FieldNames, data: Blittable, doc: Option<Document>, name: Str): Option<Option<Value>>
  {
    if name in data then Some(data[name])
    else if doc.None? then None
    else if name == n.metadataId then Some(Some(VString(doc.value.key)))
    else if name == n.metadataEtag then Some(Some(VNumber(doc.value.etag)))
    else if name == n.metadataLastModified then Some(Some(VDate(doc.value.lastModified)))
    else None
  }

  /**
   * What looking up `name` yields. The id names return the stored member
   * as it is, else Null without a document, else the document's key. Any
   * other name: a missing or null member is the boolean "found" for the
   * HasValue name, else Null or ExplicitNull; a value is converted, and
   * the metadata object's wrapper receives the document.
   */
  function Resolve(n: FieldNames, data: Blittable, doc: Option<Document>, name: Str): Result<Lookup, Error>
  {
    if name == n.documentIdFieldName || name == n.idProperty then
      if name in data then Ok(Lookup(true, AsStored(data[name])))
      else if doc.None? then Ok(Lookup(true, NullObject))
      else Ok(Lookup(true, AsStored(Some(VString(doc.value.key)))))
    else
      match Member(n, data, doc, name)
      case None => Ok(Lookup(true, if name == n.hasValue then Boolean(false) else NullObject))
      case Some(None) => Ok(Lookup(true, if name == n.hasValue then Boolean(true) else ExplicitNullObject))
      case Some(Some(v)) =>
        if name != n.metadataKey then Ok(Lookup(true, ToDynamicType(v)))
        else if v.VObject? then Ok(Lookup(true, Wrapped(v.props, doc)))
        else Err(InvalidCast)
  }

  // ---------------------------------------------------------------------
  // Properties of the lookup
  // ---------------------------------------------------------------------

  /** The names of RavenDB's Constants class are distinct from each other. */
  predicate DistinctNames(n: FieldNames)
  {
    var all := [n.documentIdFieldName, n.idProperty, n.hasValue, n.metadataKey, n.metadataId, n.metadataEtag, n.metadataLastModified];
    forall i, j | 0 <= i < j < |all| :: all[i] != all[j]
  }

  /** A lookup never reports "not found": whatever it does not find is a sentinel. */
  lemma ResolveAlwaysFound(n: FieldNames, data: Blittable, doc: Option<Document>, name: Str)
    ensures Resolve(n, data, doc, name).Ok? ==> Resolve(n, data, doc, name).value.found
    ensures Resolve(n, data, doc, name).Err? ==> Resolve(n, data, doc, name).error == InvalidCast
  {
  }

  /** The only exception: the metadata member holding something other than an object. */
  lemma ResolveFailsOnlyOnMetadata(n: FieldNames, data: Blittable, doc: Option<Document>, name: Str)
    requires DistinctNames(n)
    ensures Resolve(n, data, doc, name).Err? <==>
      name == n.metadataKey && name in data && data[name].Some? && !data[name].value.VObject?
  {
    var all := [n.documentIdFieldName, n.idProperty, n.hasValue, n.metadataKey, n.metadataId, n.metadataEtag, n.metadataLastModified];
    if name == n.metadataKey {
      assert all[3] != all[0] && all[3] != all[1] && all[3] != all[4] && all[3] != all[5] && all[3] != all[6];
    }
  }

  /** An id name: the stored member as it is, else Null without a document, else the document's key. */
  lemma IdNames(n: FieldNames, data: Blittable, doc: Option<Document>, name: Str)
    requires name == n.documentIdFieldName || name == n.idProperty
    ensures name in data ==> Resolve(n, data, doc, name) == Ok(Lookup(true, AsStored(data[name])))
    ensures name !in data && doc.None? ==> Resolve(n, data, doc, name) == Ok(Lookup(true, NullObject))
    ensures name !in data && doc.Some? ==> Resolve(n, data, doc, name) == Ok(Lookup(true, AsStored(Some(VString(doc.value.key)))))
  {
  }

  /**
   * A metadata name the data lacks, with a document attached: the id, the
   * etag and the last-modified time come from the document.
   */
  lemma MetadataFallbacks(n: FieldNames, data: Blittable, d: Document)
    requires DistinctNames(n)
    ensures n.metadataId !in data ==> Resolve(n, data, Some(d), n.metadataId) == Ok(Lookup(true, Converted(VString(d.key))))
    ensures n.metadataEtag !in data ==> Resolve(n, data, Some(d), n.metadataEtag) == Ok(Lookup(true, Converted(VNumber(d.etag))))
    ensures n.metadataLastModified !in data ==>
      Resolve(n, data, Some(d), n.metadataLastModified) == Ok(Lookup(true, Converted(VDate(d.lastModified))))
  {
    var all := [n.documentIdFieldName, n.idProperty, n.hasValue, n.metadataKey, n.metadataId, n.metadataEtag, n.metadataLastModified];
    assert all[4] != all[0] && all[4] != all[1] && all[4] != all[3];
    assert all[5] != all[0] && all[5] != all[1] && all[5] != all[3] && all[5] != all[4];
    assert all[6] != all[0] && all[6] != all[1] && all[6] != all[3] && all[6] != all[4] && all[6] != all[5];
  }

  /**
   * Any other name: a missing member is Null (false for HasValue), a null
   * member ExplicitNull (true for HasValue), and a stored value its
   * conversion.
   */
  lemma OtherNames(n: FieldNames, data: Blittable, doc: Option<Document>, name: Str)
    requires name !in {n.documentIdFieldName, n.idProperty, n.metadataKey, n.metadataId, n.metadataEtag, n.metadataLastModified}
    ensures name !in data ==>
      Resolve(n, data, doc, name) == Ok(Lookup(true, if name == n.hasValue then Boolean(false) else NullObject))
    ensures name in data && data[name].None? ==>
      Resolve(n, data, doc, name) == Ok(Lookup(true, if name == n.hasValue then Boolean(true) else ExplicitNullObject))
    ensures name in data && data[name].Some? ==> Resolve(n, data, doc, name) == Ok(Lookup(true, ToDynamicType(data[name].value)))
  {
  }

  /**
   * The metadata object receives the document, so a metadata name the
   * nested object lacks still resolves to the document's value.
   */
  lemma MetadataCarriesDocument(n: FieldNames, data: Blittable, d: Document, props: Blittable)
    requires DistinctNames(n)
    requires n.metadataKey in data && data[n.metadataKey] == Some(VObject(props))
    requires n.metadataId !in props
    ensures Resolve(n, data, Some(d), n.metadataKey) == Ok(Lookup(true, Wrapped(props, Some(d))))
    ensures Resolve(n, props, Some(d), n.metadataId) == Ok(Lookup(true, Converted(VString(d.key))))
  {
    var all := [n.documentIdFieldName, n.idProperty, n.hasValue, n.metadataKey, n.metadataId, n.metadataEtag, n.metadataLastModified];
    assert all[3] != all[0] && all[3] != all[1];
    MetadataFallbacks(n, props, d);
  }

  // ---------------------------------------------------------------------
  // The dynamic object
  // ---------------------------------------------------------------------

  /** The dynamic object over a blittable, with the document it came from when there is one. */
  class DynamicBlittableJson {
    var doc: Option<Document>
    var blittableJson: Blittable

    constructor FromDocument(document: Document)
      ensures doc == Some(document) && blittableJson == document.data
    {
      doc := Some(document);
      blittableJson := document.data;
    }

    constructor FromBlittable(data: Blittable)
      ensures doc == None && blittableJson == data
    {
      doc := None;
      blittableJson := data;
    }

    /** Points the object at another document and its data. */
    method Set(document: Document)
      modifies this
      ensures doc == Some(document) && blittableJson == document.data
    {
      doc := Some(document);
      blittableJson := document.data;
    }

    /** The lookup, step by step as the member binder performs it. */
    method TryGetByName(n: FieldNames, name: Str) returns (r: Result<Lookup, Error>)
      requires TableBuildable(n)
      ensures r == Resolve(n, blittableJson, doc, name)
    {
      if FastCompare(n, name, DocumentIdFieldNameIndex) || FastCompare(n, name, MetadataIdPropertyIndex) {
        if name in blittableJson {
          return Ok(Lookup(true, AsStored(blittableJson[name])));
        }
        if doc.None? {
          return Ok(Lookup(true, NullObject));
        }
        return Ok(Lookup(true, AsStored(Some(VString(doc.value.key)))));
      }

      var getResult := name in blittableJson;
      var result: Option<Value> := if getResult then blittableJson[name] else None;
      if !getResult && doc.Some? {
        getResult := true;
        if FastCompare(n, name, MetadataIdIndex) {
          result := Some(VString(doc.value.key));
        } else if FastCompare(n, name, MetadataEtagIndex) {
          result := Some(VNumber(doc.value.etag));
        } else if FastCompare(n, name, MetadataLastModifiedIndex) {
          result := Some(VDate(doc.value.lastModified));
        } else {
          getResult := false;
        }
      }

      if result.None? && FastCompare(n, name, MetadataHasValueIndex) {
        return Ok(Lookup(true, Boolean(getResult)));
      }
      if getResult && result.None? {
        return Ok(Lookup(true, ExplicitNullObject));
      }
      if !getResult {
        return Ok(Lookup(true, NullObject));
      }

      var converted := ToDynamicType(result.value);
      if FastCompare(n, name, MetadataKeyIndex) {
        if !converted.Wrapped? {
          return Err(InvalidCast);
        }
        converted := converted.(doc := doc);
      }
      return Ok(Lookup(true, converted));
    }

    /** The string indexer: the lookup's result, or an exception when it reports nothing found. */
    method Get(n: FieldNames, key: Str) returns (r: Result<Dyn, Error>)
      requires TableBuildable(n)
      ensures r.Ok? <==> Resolve(n, blittableJson, doc, key).Ok?
      ensures r.Ok? ==> r.value == Resolve(n, blittableJson, doc, key).value.result
      ensures r.Err? ==> r.error == InvalidCast
    {
      var lookup := TryGetByName(n, key);
      if lookup.Err? {
        ResolveAlwaysFound(n, blittableJson, doc, key);
        return Err(lookup.error);
      }
      if !lookup.value.found {
        return Err(CouldNotGet(key));
      }
      return Ok(lookup.value.result);
    }
  }
}
