/**
 * Product identifier resolution (`getProductIdentificationValue`): the display
 * identifier of a product for a given identifier type, preferring an entry of
 * the form "<type>/<value>" in the product's `goodIdentifications` list over
 * the product's own field of that name.
 */
module ProductIdentification {
  import opened Wrappers
  import Text

  /**
   * A product record: its string-valued fields by name, and the
   * `goodIdentifications` list when the record has that key.
   */
  datatype Product = Product(fields: map<string, string>, goodIdentifications: Option<seq<string>>)

  /**
   * The list key holds the list: a record whose `goodIdentifications` is a
   * string is one the source cannot resolve (its `find` call throws).
   */
  predicate WellFormed(product: Product) {
    "goodIdentifications" !in product.fields
  }

  /**
   * `!Object.keys(product).length`: a record with no keys at all (the list key
   * counts as a key). There is exactly one such record.
   */
  predicate IsEmpty(product: Product): (empty: bool)
    ensures empty <==> product == Product(map[], None)
  {
    product.fields == map[] && product.goodIdentifications.None?
  }

  /** `product[name]`: the field's value, absent exactly when the record has no such key. */
  function Field(product: Product, name: string): (r: Option<string>)
    ensures r.Some? <==> name in product.fields
    ensures r.Some? ==> r.value == product.fields[name]
  {
    if name in product.fields then Some(product.fields[name]) else None
  }

  /**
   * `entry.startsWith(identifierType + "/")`. An identifying entry has a `/`
   * right after the type, so its split has a segment 1.
   */
  predicate Identifies(entry: string, identifierType: string): (b: bool)
    ensures b ==> |identifierType| < |entry| && entry[|identifierType|] == '/' && '/' in entry
  {
    identifierType + "/" <= entry
  }

  /** `ids.find(...)`: the index of the first entry that identifies the type. */
  function FindIdentification(ids: seq<string>, identifierType: string): (r: Option<nat>)
    ensures r.Some? ==> r.value < |ids| && Identifies(ids[r.value], identifierType)
    ensures r.Some? ==> forall j :: 0 <= j < r.value ==> !Identifies(ids[j], identifierType)
    ensures r.None? ==> forall j :: 0 <= j < |ids| ==> !Identifies(ids[j], identifierType)
  {
    if ids == [] then None
    else if Identifies(ids[0], identifierType) then Some(0)
    else
      match FindIdentification(ids[1..], identifierType)
      case None => None
      case Some(i) => Some(i + 1)
  }

  /**
   * `getProductIdentificationValue(identifierType, product)`. The value of a
   * matching entry is its second `/`-separated segment, as `split('/')[1]`.
   */
  function ProductIdentificationValue(identifierType: string, product: Product): (r: Option<string>)
    requires WellFormed(product)
    ensures IsEmpty(product) ==> r == None
    ensures r.Some? && r != Field(product, identifierType) ==> '/' !in r.value
  {
    if IsEmpty(product) then None
    else
      var ids := Identifications(product);
      match FindIdentification(ids, identifierType)
      case None => Field(product, identifierType)
      case Some(i) => Some(Text.Split(ids[i], '/')[1])
  }

  /**
   * `product['goodIdentifications']?.`: the whole list when the record has one,
   * and otherwise [], so that an absent list, like an empty one, holds no
   * identifying entry.
   */
  function Identifications(product: Product): (ids: seq<string>)
    ensures product.goodIdentifications.Some? ==> ids == product.goodIdentifications.value
    ensures product.goodIdentifications.None? ==> ids == []
  {
    product.goodIdentifications.GetOr([])
  }

  /** With no identifying entry (or no list at all) the direct field is the answer. */
  lemma NoIdentificationYieldsField(identifierType: string, product: Product)
    requires WellFormed(product) && !IsEmpty(product)
    requires forall j :: 0 <= j < |Identifications(product)| ==> !Identifies(Identifications(product)[j], identifierType)
    ensures ProductIdentificationValue(identifierType, product) == Field(product, identifierType)
  {
  }

  /** The first identifying entry in list order decides the value. */
  lemma FirstIdentificationWins(identifierType: string, product: Product, i: nat)
    requires WellFormed(product)
    requires i < |Identifications(product)| && Identifies(Identifications(product)[i], identifierType)
    requires forall j :: 0 <= j < i ==> !Identifies(Identifications(product)[j], identifierType)
    ensures '/' in Identifications(product)[i]
    ensures ProductIdentificationValue(identifierType, product) == Some(Text.Split(Identifications(product)[i], '/')[1])
  {
  }

  /** Once an entry identifies the type, the direct field no longer matters. */
  lemma FieldIgnoredWhenIdentified(identifierType: string, p: Product, q: Product, i: nat)
    requires WellFormed(p) && WellFormed(q)
    requires p.goodIdentifications == q.goodIdentifications
    requires i < |Identifications(p)| && Identifies(Identifications(p)[i], identifierType)
    ensures ProductIdentificationValue(identifierType, p) == ProductIdentificationValue(identifierType, q)
  {
  }

  /**
   * For an identifier type without `/`, the entry "<type>/<rest>" yields the
   * part of `rest` before its first `/` (all of `rest` when it has none).
   */
  lemma {:induction false} SegmentTaken(identifierType: string, rest: string)
    requires '/' !in identifierType
    ensures var v := Text.Split(identifierType + "/" + rest, '/')[1];
      v <= rest && '/' !in v && (|v| < |rest| ==> rest[|v|] == '/')
  {
    Text.SplitAfterFirst(identifierType, '/', rest);
    Text.SplitHead(rest, '/');
  }

  /** "SKU/" is present but empty: the value is "", not absent, and the field is overridden. */
  lemma EmptySegmentExample()
    ensures ProductIdentificationValue("SKU", Product(map["SKU" := "direct"], Some(["SKU/"]))) == Some("")
  {
    assert Identifies("SKU/", "SKU");
    assert "SKU/" == "SKU" + ['/'] + "";
    Text.SplitAfterFirst("SKU", '/', "");
    assert Text.IndexOf("", '/') == None;
  }

  /** "SKU/a/b" yields "a": only the segment between the first and second `/`. */
  lemma SecondSegmentOnlyExample()
    ensures ProductIdentificationValue("SKU", Product(map[], Some(["SKU/a/b"]))) == Some("a")
  {
    assert Identifies("SKU/a/b", "SKU");
    assert "SKU/a/b" == "SKU" + ['/'] + "a/b";
    Text.SplitAfterFirst("SKU", '/', "a/b");
    assert "a/b" == "a" + ['/'] + "b";
    Text.SplitAfterFirst("a", '/', "b");
  }

  /** The `/` belongs to the prefix: "SKUX/1" does not identify "SKU", so the field is kept. */
  lemma PrefixIncludesSlashExample()
    ensures ProductIdentificationValue("SKU", Product(map["SKU" := "direct"], Some(["SKUX/1"]))) == Some("direct")
  {
    assert !Identifies("SKUX/1", "SKU") by { assert "SKUX/1"[3] != "SKU/"[3]; }
    NoIdentificationYieldsField("SKU", Product(map["SKU" := "direct"], Some(["SKUX/1"])));
  }
}
