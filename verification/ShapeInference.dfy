/**
 * Recursive shape inference over JSON samples (`scripts/postman_contract.py`), including strings
 * that themselves hold a JSON document. `json.loads` is the parameter `parse`.
 */
module ShapeInference {
  import opened Prelude
  import opened JsonModel

  type Parser = string -> Option<Json>

  datatype Kind = ArrayKind | BooleanKind | IntegerKind | NullKind | NumberKind | ObjectKind | StringKind

  /** The kinds in the order in which Python sorts their names. */
  const SORTED_KINDS: seq<Kind> :=
    [ArrayKind, BooleanKind, IntegerKind, NullKind, NumberKind, ObjectKind, StringKind]

  datatype Field = Field(required: bool, shape: Shape)

  datatype Shape =
    | Scalar(kind: Kind)
    | EncodedJson(decoded: Shape)
    | ArrayOf(items: Shape)
    | Unknown
    | ObjectOf(fields: map<string, Field>)
    | Union(variants: seq<Shape>)

  function KindOf(value: Json): Kind {
    match value
    case Null => NullKind
    case Boolean(_) => BooleanKind
    case Integer(_) => IntegerKind
    case Number(_) => NumberKind
    case Text(_) => StringKind
    case Array(_) => ArrayKind
    case Object(_) => ObjectKind
  }

  // ---------------------------------------------------------------- decoding

  /** The code points Python's `str.strip` removes. */
  predicate IsSpace(c: char) {
    var code := c as int;
    || 0x09 <= code <= 0x0d || 0x1c <= code <= 0x20 || code == 0x85 || code == 0xa0 || code == 0x1680
    || 0x2000 <= code <= 0x200a || code == 0x2028 || code == 0x2029 || code == 0x202f || code == 0x205f
    || code == 0x3000
  }

  function Strip(text: string): (r: string)
    ensures |r| <= |text|
    ensures r != [] ==> !IsSpace(r[0]) && !IsSpace(r[|r| - 1])
  {
    if text == [] then []
    else if IsSpace(text[0]) then Strip(text[1..])
    else if IsSpace(text[|text| - 1]) then Strip(text[..|text| - 1])
    else text
  }

  /** Stripping takes white space off both ends and nothing else. */
  lemma {:induction false} StripKeepsCore(text: string) returns (front: string, back: string)
    ensures text == front + Strip(text) + back
    ensures forall c :: c in front || c in back ==> IsSpace(c)
  {
    hide IsSpace;
    if text == [] {
      front, back := [], [];
    } else if IsSpace(text[0]) {
      front, back := StripKeepsCore(text[1..]);
      front := [text[0]] + front;
    } else if IsSpace(text[|text| - 1]) {
      front, back := StripKeepsCore(text[..|text| - 1]);
      back := back + [text[|text| - 1]];
    } else {
      front, back := [], [];
    }
  }

  function Decode(parse: Parser, text: string): Option<Json> {
    var stripped := Strip(text);
    if stripped == [] || stripped[0] !in "[{" then None else parse(stripped)
  }

  /** What a JSON parser guarantees: a value is never heavier than the text that denotes it. */
  ghost predicate Shrinks(parse: Parser) {
    forall text :: parse(text).Some? ==> Weight(parse(text).value) <= |text|
  }

  // ---------------------------------------------------------------- list comprehensions

  function OfKind(values: seq<Json>, kind: Kind): (r: seq<Json>)
    ensures forall v :: v in r <==> v in values && KindOf(v) == kind
  {
    if values == [] then []
    else
      var last := values[|values| - 1];
      OfKind(values[..|values| - 1], kind) + if KindOf(last) == kind then [last] else []
  }

  function Present(objects: seq<Json>, key: string): (r: seq<Json>)
    requires forall v :: v in objects ==> v.Object?
    ensures |r| <= |objects|
    ensures forall v :: v in objects && key in v.fields ==> v.fields[key] in r
    ensures |r| == |objects| <==> forall v :: v in objects ==> key in v.fields
  {
    if objects == [] then []
    else
      var last := objects[|objects| - 1];
      Present(objects[..|objects| - 1], key) + if key in last.fields then [last.fields[key]] else []
  }

  function ItemsOf(arrays: seq<Json>): (r: seq<Json>)
    requires forall v :: v in arrays ==> v.Array?
    ensures forall v, x :: v in arrays && x in v.items ==> x in r
  {
    if arrays == [] then [] else ItemsOf(arrays[..|arrays| - 1]) + arrays[|arrays| - 1].items
  }

  function KeysOf(objects: seq<Json>): set<string>
    requires forall v :: v in objects ==> v.Object?
  {
    set v, key | v in objects && key in v.fields :: key
  }

  /** The decoded texts, or None as soon as one does not hold a JSON array or object. */
  function DecodeAll(parse: Parser, texts: seq<Json>): (r: Option<seq<Json>>)
    requires forall v :: v in texts ==> v.Text?
    ensures r.Some? <==> forall v :: v in texts ==> Decode(parse, v.text).Some?
    ensures r.Some? ==> |r.value| == |texts|
    ensures r.Some? ==> forall v :: v in texts ==> Decode(parse, v.text).value in r.value
  {
    if texts == [] then Some([])
    else
      var front := DecodeAll(parse, texts[..|texts| - 1]);
      var last := texts[|texts| - 1];
      if front.None? || Decode(parse, last.text).None? then None
      else Some(front.value + [Decode(parse, last.text).value])
  }

  /** Where a member of a comprehension comes from. */
  lemma PresentFrom(objects: seq<Json>, key: string, x: Json) returns (v: Json)
    requires forall v :: v in objects ==> v.Object?
    requires x in Present(objects, key)
    ensures v in objects && key in v.fields && v.fields[key] == x
  {
    v := objects[|objects| - 1];
    if !(key in v.fields && v.fields[key] == x) {
      v := PresentFrom(objects[..|objects| - 1], key, x);
    }
  }

  lemma ItemFrom(arrays: seq<Json>, x: Json) returns (v: Json)
    requires forall v :: v in arrays ==> v.Array?
    requires x in ItemsOf(arrays)
    ensures v in arrays && x in v.items
  {
    v := arrays[|arrays| - 1];
    if x !in v.items {
      v := ItemFrom(arrays[..|arrays| - 1], x);
    }
  }

  lemma DecodedFrom(parse: Parser, texts: seq<Json>, x: Json) returns (v: Json)
    requires forall v :: v in texts ==> v.Text?
    requires DecodeAll(parse, texts).Some? && x in DecodeAll(parse, texts).value
    ensures v in texts && Decode(parse, v.text) == Some(x)
  {
    v := texts[|texts| - 1];
    if Decode(parse, v.text) != Some(x) {
      v := DecodedFrom(parse, texts[..|texts| - 1], x);
    }
  }

  // ---------------------------------------------------------------- the inferred shape

  predicate Uniform(values: seq<Json>) {
    forall v :: v in values ==> KindOf(v) == KindOf(values[0])
  }

  predicate HasKind(values: seq<Json>, kind: Kind) {
    exists v :: v in values && KindOf(v) == kind
  }

  ghost function Infer(parse: Parser, values: seq<Json>): Shape
    requires values != [] && Shrinks(parse)
    decreases HeaviestOf(values), if Uniform(values) then 0 else 1, 1, 0
  {
    if !Uniform(values) then Union(InferParts(parse, values, SORTED_KINDS))
    else match KindOf(values[0])
    case ObjectKind => ObjectOf(InferFields(parse, values, KeysOf(values)))
    case ArrayKind =>
      if ItemsOf(values) == [] then ArrayOf(Unknown)
      else (ItemsShrink(values); ArrayOf(Infer(parse, ItemsOf(values))))
    case StringKind =>
      var decoded := DecodeAll(parse, values);
      if decoded.None? then Scalar(StringKind)
      else (DecodedShrinks(parse, values); EncodedJson(Infer(parse, decoded.value)))
    case kind => Scalar(kind)
  }

  /** One shape per kind that occurs, in the order of `kinds`. */
  ghost function InferParts(parse: Parser, values: seq<Json>, kinds: seq<Kind>): seq<Shape>
    requires values != [] && Shrinks(parse)
    decreases HeaviestOf(values), 1, 0, |kinds|
  {
    if kinds == [] then []
    else
      var kind := kinds[|kinds| - 1];
      InferParts(parse, values, kinds[..|kinds| - 1])
      + if HasKind(values, kind) then (PartShrinks(values, kind); [Infer(parse, OfKind(values, kind))]) else []
  }

  ghost function InferFields(parse: Parser, objects: seq<Json>, keys: set<string>): map<string, Field>
    requires objects != [] && Shrinks(parse)
    requires forall v :: v in objects ==> v.Object?
    requires keys <= KeysOf(objects)
    decreases HeaviestOf(objects), 0, 0, 0
  {
    map key | key in keys ::
      (FieldsShrink(objects, key);
       Field(|Present(objects, key)| == |objects|, Infer(parse, Present(objects, key))))
  }

  // ---------------------------------------------------------------- the recursion's measure

  lemma PartShrinks(values: seq<Json>, kind: Kind)
    requires HasKind(values, kind)
    ensures OfKind(values, kind) != [] && Uniform(OfKind(values, kind))
    ensures HeaviestOf(OfKind(values, kind)) <= HeaviestOf(values)
  {
    var v :| v in values && KindOf(v) == kind;
    assert v in OfKind(values, kind);
    forall w | w in OfKind(values, kind) ensures Weight(w) <= HeaviestOf(values) {
      MemberWeight(values, w);
    }
    HeaviestBound(OfKind(values, kind), HeaviestOf(values));
  }

  lemma FieldsShrink(objects: seq<Json>, key: string)
    requires forall v :: v in objects ==> v.Object?
    requires key in KeysOf(objects)
    ensures Present(objects, key) != []
    ensures HeaviestOf(Present(objects, key)) < HeaviestOf(objects)
  {
    forall x | x in Present(objects, key) ensures Weight(x) <= HeaviestOf(objects) - 1 {
      var v := PresentFrom(objects, key, x);
      FieldWeight(v, v.fields.Keys, key);
      MemberWeight(objects, v);
    }
    var v :| v in objects && key in v.fields;
    assert v.fields[key] in Present(objects, key);
    HeaviestBound(Present(objects, key), HeaviestOf(objects) - 1);
  }

  lemma ItemsShrink(arrays: seq<Json>)
    requires forall v :: v in arrays ==> v.Array?
    requires ItemsOf(arrays) != []
    ensures HeaviestOf(ItemsOf(arrays)) < HeaviestOf(arrays)
  {
    forall x | x in ItemsOf(arrays) ensures Weight(x) <= HeaviestOf(arrays) - 1 {
      var v := ItemFrom(arrays, x);
      MemberWeight(v.items, x);
      MemberWeight(arrays, v);
    }
    assert ItemsOf(arrays)[0] in ItemsOf(arrays);
    HeaviestBound(ItemsOf(arrays), HeaviestOf(arrays) - 1);
  }

  /** Decoding and analysing a text again still makes progress. */
  lemma DecodedShrinks(parse: Parser, texts: seq<Json>)
    requires Shrinks(parse) && texts != []
    requires forall v :: v in texts ==> v.Text?
    requires DecodeAll(parse, texts).Some?
    ensures DecodeAll(parse, texts).value != []
    ensures HeaviestOf(DecodeAll(parse, texts).value) < HeaviestOf(texts)
  {
    var decoded := DecodeAll(parse, texts).value;
    forall x | x in decoded ensures Weight(x) <= HeaviestOf(texts) - 1 {
      var v := DecodedFrom(parse, texts, x);
      MemberWeight(texts, v);
    }
    assert decoded[0] in decoded;
    HeaviestBound(decoded, HeaviestOf(texts) - 1);
  }

  // ---------------------------------------------------------------- the algorithm

  /** `infer_shape`: groups the samples by kind, then joins the samples of the only kind. */
  method InferShape(parse: Parser, values: seq<Json>) returns (shape: Shape)
    requires values != [] && Shrinks(parse)
    ensures shape == Infer(parse, values)
    decreases HeaviestOf(values), if Uniform(values) then 0 else 1, 1, 0
  {
    hide Infer, OfKind, HeaviestOf;
    var byKind := GroupByKind(values);
    if |byKind| > 1 {
      SeveralKinds(values, byKind.Keys);
      shape := InferUnion(parse, values, byKind);
      return;
    }
    OneKind(values, byKind.Keys);
    var kind := KindOf(values[0]);
    if kind == ObjectKind {
      shape := InferObject(parse, values);
    } else if kind == ArrayKind {
      shape := InferArray(parse, values);
    } else if kind == StringKind {
      shape := InferText(parse, values);
    } else {
      UnfoldScalar(parse, values);
      shape := Scalar(kind);
    }
  }

  lemma UnfoldScalar(parse: Parser, values: seq<Json>)
    requires values != [] && Shrinks(parse) && Uniform(values)
    requires KindOf(values[0]) !in {ObjectKind, ArrayKind, StringKind}
    ensures Infer(parse, values) == Scalar(KindOf(values[0]))
  {
  }

  method GroupByKind(values: seq<Json>) returns (byKind: map<Kind, seq<Json>>)
    ensures forall k :: k in byKind <==> HasKind(values, k)
    ensures forall k :: k in byKind ==> byKind[k] == OfKind(values, k)
  {
    hide HasKind, OfKind;
    byKind := map[];
    NoneOfKind();
    for i := 0 to |values|
      invariant forall k :: k in byKind <==> OfKind(values[..i], k) != []
      invariant forall k :: k in byKind ==> byKind[k] == OfKind(values[..i], k)
    {
      var kind := KindOf(values[i]);
      OfKindStep(values[..i], values[i]);
      assert values[..i + 1] == values[..i] + [values[i]];
      byKind := byKind[kind := (if kind in byKind then byKind[kind] else []) + [values[i]]];
    }
    assert values[..|values|] == values;
    forall k ensures k in byKind <==> HasKind(values, k) {
      NonEmptyPart(values, k);
    }
  }

  lemma NoneOfKind()
    ensures forall k :: OfKind([], k) == []
  {
  }

  lemma OfKindStep(values: seq<Json>, last: Json)
    ensures forall k :: OfKind(values + [last], k) == OfKind(values, k) + if KindOf(last) == k then [last] else []
  {
    assert (values + [last])[..|values|] == values;
  }

  method InferUnion(parse: Parser, values: seq<Json>, byKind: map<Kind, seq<Json>>) returns (shape: Shape)
    requires values != [] && Shrinks(parse) && !Uniform(values)
    requires forall k :: k in byKind <==> HasKind(values, k)
    requires forall k :: k in byKind ==> byKind[k] == OfKind(values, k)
    ensures shape == Infer(parse, values)
    decreases HeaviestOf(values), 1, 0, 1
  {
    var variants := InferVariants(parse, values, byKind, SORTED_KINDS);
    shape := Union(variants);
  }

  method InferVariants(parse: Parser, values: seq<Json>, byKind: map<Kind, seq<Json>>, kinds: seq<Kind>)
    returns (variants: seq<Shape>)
    requires values != [] && Shrinks(parse) && !Uniform(values)
    requires forall k :: k in byKind <==> HasKind(values, k)
    requires forall k :: k in byKind ==> byKind[k] == OfKind(values, k)
    ensures variants == InferParts(parse, values, kinds)
    decreases HeaviestOf(values), 1, 0, 0
  {
    variants := [];
    for i := 0 to |kinds|
      invariant variants == InferParts(parse, values, kinds[..i])
    {
      assert kinds[..i + 1][..i] == kinds[..i];
      if kinds[i] in byKind {
        PartShrinks(values, kinds[i]);
        var variant := InferShape(parse, byKind[kinds[i]]);
        variants := variants + [variant];
      }
    }
    assert kinds[..|kinds|] == kinds;
  }

  method InferArray(parse: Parser, arrays: seq<Json>) returns (shape: Shape)
    requires arrays != [] && Shrinks(parse)
    requires forall v :: v in arrays ==> v.Array?
    ensures shape == Infer(parse, arrays)
    decreases HeaviestOf(arrays), 0, 0
  {
    var items := ItemsOf(arrays);
    if items == [] {
      shape := ArrayOf(Unknown);
    } else {
      ItemsShrink(arrays);
      var inner := InferShape(parse, items);
      shape := ArrayOf(inner);
    }
    UnfoldArray(parse, arrays);
  }

  method InferText(parse: Parser, texts: seq<Json>) returns (shape: Shape)
    requires texts != [] && Shrinks(parse)
    requires forall v :: v in texts ==> v.Text?
    ensures shape == Infer(parse, texts)
    decreases HeaviestOf(texts), 0, 0
  {
    var decoded, allEncodedJson := DecodeTexts(parse, texts);
    UnfoldText(parse, texts);
    if allEncodedJson && decoded != [] {
      DecodedShrinks(parse, texts);
      var inner := InferShape(parse, decoded);
      shape := EncodedJson(inner);
    } else {
      shape := Scalar(StringKind);
    }
  }

  lemma NoFields(parse: Parser, objects: seq<Json>)
    requires objects != [] && Shrinks(parse) && forall v :: v in objects ==> v.Object?
    ensures KeysOf(objects) - KeysOf(objects) == {}
    ensures InferFields(parse, objects, {}) == map[]
  {
  }

  method InferObject(parse: Parser, objects: seq<Json>) returns (shape: Shape)
    requires objects != [] && Shrinks(parse)
    requires forall v :: v in objects ==> v.Object?
    ensures shape == Infer(parse, objects)
    decreases HeaviestOf(objects), 0, 0, 0
  {
    NoFields(parse, objects);
    hide Infer, InferFields, KeysOf, Present, HeaviestOf;
    var pending := KeysOf(objects);
    var fields: map<string, Field> := map[];
    while pending != {}
      invariant pending <= KeysOf(objects)
      invariant fields == InferFields(parse, objects, KeysOf(objects) - pending)
      decreases |pending|
    {
      var key :| key in pending;
      var present := Present(objects, key);
      FieldsShrink(objects, key);
      var inner := InferShape(parse, present);
      FieldStep(parse, objects, KeysOf(objects) - pending, key);
      fields := fields[key := Field(|present| == |objects|, inner)];
      assert KeysOf(objects) - pending + {key} == KeysOf(objects) - (pending - {key});
      pending := pending - {key};
    }
    assert KeysOf(objects) - pending == KeysOf(objects);
    shape := ObjectOf(fields);
    UnfoldObject(parse, objects);
  }

  /** Stops at the first text that does not hold an encoded array or object. */
  method DecodeTexts(parse: Parser, texts: seq<Json>) returns (decoded: seq<Json>, all: bool)
    requires forall v :: v in texts ==> v.Text?
    ensures all <==> DecodeAll(parse, texts).Some?
    ensures all ==> Some(decoded) == DecodeAll(parse, texts)
  {
    decoded, all := [], true;
    for i := 0 to |texts|
      invariant all && DecodeAll(parse, texts[..i]) == Some(decoded)
    {
      var one := Decode(parse, texts[i].text);
      assert texts[..i + 1][..i] == texts[..i];
      if one.None? {
        assert texts[i] in texts;
        all := false;
        return;
      }
      decoded := decoded + [one.value];
    }
    assert texts[..|texts|] == texts;
  }

  // ---------------------------------------------------------------- unfolding lemmas

  lemma UnfoldObject(parse: Parser, objects: seq<Json>)
    requires objects != [] && Shrinks(parse)
    requires forall v :: v in objects ==> v.Object?
    ensures Infer(parse, objects) == ObjectOf(InferFields(parse, objects, KeysOf(objects)))
  {
    assert objects[0] in objects;
  }

  lemma FieldStep(parse: Parser, objects: seq<Json>, keys: set<string>, key: string)
    requires objects != [] && Shrinks(parse)
    requires forall v :: v in objects ==> v.Object?
    requires keys + {key} <= KeysOf(objects) && Present(objects, key) != []
    ensures InferFields(parse, objects, keys + {key})
      == InferFields(parse, objects, keys)[key :=
        Field(|Present(objects, key)| == |objects|, Infer(parse, Present(objects, key)))]
  {
  }

  lemma UnfoldArray(parse: Parser, arrays: seq<Json>)
    requires arrays != [] && Shrinks(parse)
    requires forall v :: v in arrays ==> v.Array?
    ensures ItemsOf(arrays) == [] ==> Infer(parse, arrays) == ArrayOf(Unknown)
    ensures ItemsOf(arrays) != [] ==> Infer(parse, arrays) == ArrayOf(Infer(parse, ItemsOf(arrays)))
  {
    assert arrays[0] in arrays;
  }

  lemma UnfoldText(parse: Parser, texts: seq<Json>)
    requires texts != [] && Shrinks(parse)
    requires forall v :: v in texts ==> v.Text?
    ensures DecodeAll(parse, texts).None? ==> Infer(parse, texts) == Scalar(StringKind)
    ensures DecodeAll(parse, texts).Some? ==>
      DecodeAll(parse, texts).value != []
      && Infer(parse, texts) == EncodedJson(Infer(parse, DecodeAll(parse, texts).value))
  {
    hide Decode, Strip, HeaviestOf, InferParts, InferFields;
    assert texts[0] in texts;
    assert KindOf(texts[0]) == StringKind && Uniform(texts);
    if DecodeAll(parse, texts).Some? {
      DecodedShrinks(parse, texts);
    }
  }

  /** The variant that `InferParts` gives to a kind. */
  lemma PartOf(parse: Parser, values: seq<Json>, kinds: seq<Kind>, kind: Kind) returns (i: nat)
    requires values != [] && Shrinks(parse) && HasKind(values, kind) && kind in kinds
    ensures OfKind(values, kind) != []
    ensures i < |InferParts(parse, values, kinds)|
    ensures InferParts(parse, values, kinds)[i] == Infer(parse, OfKind(values, kind))
  {
    var front := kinds[..|kinds| - 1];
    PartShrinks(values, kind);
    if kinds[|kinds| - 1] == kind {
      i := |InferParts(parse, values, front)|;
    } else {
      i := PartOf(parse, values, front, kind);
    }
  }

  /** The kind that a variant of `InferParts` belongs to. */
  lemma PartKind(parse: Parser, values: seq<Json>, kinds: seq<Kind>, i: nat) returns (kind: Kind)
    requires values != [] && Shrinks(parse)
    requires i < |InferParts(parse, values, kinds)|
    ensures kind in kinds && HasKind(values, kind) && OfKind(values, kind) != []
    ensures InferParts(parse, values, kinds)[i] == Infer(parse, OfKind(values, kind))
  {
    var front := kinds[..|kinds| - 1];
    kind := kinds[|kinds| - 1];
    if i < |InferParts(parse, values, front)| {
      kind := PartKind(parse, values, front, i);
    } else {
      PartShrinks(values, kind);
    }
  }

  lemma NonEmptyPart(values: seq<Json>, kind: Kind)
    ensures HasKind(values, kind) <==> OfKind(values, kind) != []
  {
    if OfKind(values, kind) != [] {
      assert OfKind(values, kind)[0] in OfKind(values, kind);
    }
  }

  lemma SeveralKinds(values: seq<Json>, kinds: set<Kind>)
    requires forall k :: k in kinds ==> HasKind(values, k)
    requires |kinds| > 1
    ensures values != [] && !Uniform(values)
  {
    var a :| a in kinds;
    assert |kinds - {a}| > 0;
    var b :| b in kinds - {a};
    var v :| v in values && KindOf(v) == a;
    var w :| w in values && KindOf(w) == b;
  }

  lemma OneKind(values: seq<Json>, kinds: set<Kind>)
    requires values != [] && |kinds| <= 1
    requires forall k :: HasKind(values, k) ==> k in kinds
    ensures Uniform(values)
  {
    forall v | v in values ensures KindOf(v) == KindOf(values[0]) {
      assert HasKind(values, KindOf(v)) && HasKind(values, KindOf(values[0]));
      SingletonMembers(kinds, KindOf(v), KindOf(values[0]));
    }
  }

  lemma SingletonMembers<T>(s: set<T>, a: T, b: T)
    requires |s| <= 1 && a in s && b in s
    ensures a == b
  {
    assert |s - {a}| == |s| - 1;
    assert b in s - {a} <==> a != b;
  }
}
