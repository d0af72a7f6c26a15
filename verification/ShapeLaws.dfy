/** What an inferred shape means, and why it is the least shape that describes its samples. */
module ShapeLaws {
  import opened Prelude
  import opened JsonModel
  import opened ShapeInference

  /** The JSON values of each kind; a boolean is no integer. */
  predicate IsA(value: Json, kind: Kind) {
    match kind
    case ArrayKind => value.Array?
    case BooleanKind => value.Boolean?
    case IntegerKind => value.Integer?
    case NullKind => value.Null?
    case NumberKind => value.Number?
    case ObjectKind => value.Object?
    case StringKind => value.Text?
  }

  lemma KindIff(value: Json, kind: Kind)
    ensures KindOf(value) == kind <==> IsA(value, kind)
  {
  }

  /** The code points that Python treats as white space. */
  const WHITE_SPACE: set<int> := {
    0x09, 0x0a, 0x0b, 0x0c, 0x0d, 0x1c, 0x1d, 0x1e, 0x1f, 0x20, 0x85, 0xa0, 0x1680,
    0x2000, 0x2001, 0x2002, 0x2003, 0x2004, 0x2005, 0x2006, 0x2007, 0x2008, 0x2009, 0x200a,
    0x2028, 0x2029, 0x202f, 0x205f, 0x3000}

  predicate WhiteBetween(text: string, from: int, to: int)
    requires 0 <= from && to <= |text|
  {
    forall k :: from <= k < to ==> text[k] as int in WHITE_SPACE
  }

  /** The core stands at position `i`, with nothing but white space before and behind. */
  predicate CoreAt(text: string, core: string, i: int) {
    && core != [] && 0 <= i && i + |core| <= |text| && text[i..i + |core|] == core
    && text[i] as int !in WHITE_SPACE && text[i + |core| - 1] as int !in WHITE_SPACE
    && WhiteBetween(text, 0, i) && WhiteBetween(text, i + |core|, |text|)
  }

  /** The text is `core`, which is not blank at either end, with white space around it. */
  ghost predicate IsCore(text: string, core: string) {
    exists i :: CoreAt(text, core, i)
  }

  /** The text holds one JSON array or object: its core starts like one, and it parses. */
  ghost predicate IsDocument(parse: Parser, text: string, core: string) {
    IsCore(text, core) && (core[0] == '[' || core[0] == '{') && parse(core).Some?
  }

  lemma SpaceIff(c: char)
    ensures IsSpace(c) <==> c as int in WHITE_SPACE
  {
  }

  lemma CoreIsUnique(text: string, a: string, b: string)
    requires IsCore(text, a) && IsCore(text, b)
    ensures a == b
  {
    var i :| CoreAt(text, a, i);
    var j :| CoreAt(text, b, j);
    hide WHITE_SPACE;
    assert i == j && i + |a| == j + |b|;
  }

  /** What `strip` leaves is the core, and it leaves nothing of a blank text. */
  lemma StripIsCore(text: string)
    ensures if Strip(text) == [] then WhiteBetween(text, 0, |text|) else IsCore(text, Strip(text))
  {
    var front, back := StripKeepsCore(text);
    var core := Strip(text);
    forall k | 0 <= k < |front| || |front| + |core| <= k < |text| ensures text[k] as int in WHITE_SPACE {
      SpaceIff(text[k]);
      assert text[k] in front || text[k] in back;
    }
    if core != [] {
      SpaceIff(core[0]);
      SpaceIff(core[|core| - 1]);
      hide WHITE_SPACE, Strip;
      assert CoreAt(text, core, |front|);
    }
  }

  lemma CoreIsNotBlank(text: string, core: string)
    requires IsCore(text, core)
    ensures !WhiteBetween(text, 0, |text|)
  {
    hide WHITE_SPACE;
    var i :| CoreAt(text, core, i);
    assert text[i] as int !in WHITE_SPACE;
  }

  /** A text decodes exactly if it holds a document, and to what that document means. */
  lemma DecodesIffDocument(parse: Parser, text: string, core: string)
    ensures IsDocument(parse, text, core) ==> Decode(parse, text) == parse(core)
    ensures Decode(parse, text).Some? ==>
      IsDocument(parse, text, Strip(text)) && Decode(parse, text) == parse(Strip(text))
  {
    hide WHITE_SPACE, IsCore, WhiteBetween, Strip;
    StripIsCore(text);
    if IsCore(text, core) {
      if Strip(text) == [] {
        CoreIsNotBlank(text, core);
      } else {
        CoreIsUnique(text, core, Strip(text));
      }
    }
  }

  lemma EncodedIff(parse: Parser, value: Json, decoded: Shape)
    ensures Conforms(parse, value, EncodedJson(decoded)) <==>
      value.Text? && Decode(parse, value.text).Some? && Conforms(parse, Decode(parse, value.text).value, decoded)
  {
    hide IsDocument, Decode, Strip;
    if value.Text? {
      forall core | IsDocument(parse, value.text, core)
        ensures Decode(parse, value.text) == parse(core) && parse(core).Some?
      {
        DecodesIffDocument(parse, value.text, core);
        DocumentParses(parse, value.text, core);
      }
      DecodesIffDocument(parse, value.text, Strip(value.text));
    }
  }

  lemma DocumentParses(parse: Parser, text: string, core: string)
    requires IsDocument(parse, text, core)
    ensures parse(core).Some?
  {
  }

  /**
   * The values a shape describes. `Unknown` stands for "no item was ever seen", so only the empty
   * array has the shape `ArrayOf(Unknown)`.
   */
  ghost predicate Conforms(parse: Parser, value: Json, shape: Shape)
    decreases shape
  {
    match shape
    case Scalar(kind) => IsA(value, kind)
    case Unknown => false
    case EncodedJson(decoded) =>
      value.Text? && exists core ::
        IsDocument(parse, value.text, core) && Conforms(parse, parse(core).value, decoded)
    case ArrayOf(items) => value.Array? && forall x :: x in value.items ==> Conforms(parse, x, items)
    case ObjectOf(fields) =>
      && value.Object?
      && (forall key :: key in fields && fields[key].required ==> key in value.fields)
      && (forall key :: key in value.fields ==> key in fields)
      && (forall key :: key in value.fields && key in fields ==> Conforms(parse, value.fields[key], fields[key].shape))
    case Union(variants) => exists i :: 0 <= i < |variants| && Conforms(parse, value, variants[i])
  }

  ghost function ShapeKind(shape: Shape): Kind
    requires !shape.Union? && !shape.Unknown?
  {
    match shape
    case Scalar(kind) => kind
    case EncodedJson(_) => StringKind
    case ArrayOf(_) => ArrayKind
    case ObjectOf(_) => ObjectKind
  }

  /** Every union in the shape has at most one variant per kind, and no nested union. */
  ghost predicate Normal(shape: Shape)
    decreases shape
  {
    match shape
    case Scalar(_) => true
    case Unknown => true
    case EncodedJson(decoded) => Normal(decoded)
    case ArrayOf(items) => Normal(items)
    case ObjectOf(fields) => forall key :: key in fields ==> Normal(fields[key].shape)
    case Union(variants) =>
      && (forall i :: 0 <= i < |variants| ==>
            !variants[i].Union? && !variants[i].Unknown? && Normal(variants[i]))
      && (forall i, j :: 0 <= i < j < |variants| ==> ShapeKind(variants[i]) != ShapeKind(variants[j]))
  }

  /** The position of a kind in the order of the kinds' names. */
  function Rank(kind: Kind): (r: nat)
    ensures r < |SORTED_KINDS| && SORTED_KINDS[r] == kind
  {
    match kind
    case ArrayKind => 0
    case BooleanKind => 1
    case IntegerKind => 2
    case NullKind => 3
    case NumberKind => 4
    case ObjectKind => 5
    case StringKind => 6
  }

  /** Variants that are no unions themselves, one per kind, in the order of the kinds. */
  ghost predicate Ordered(variants: seq<Shape>) {
    && (forall i :: 0 <= i < |variants| ==> !variants[i].Union? && !variants[i].Unknown?)
    && (forall i, j :: 0 <= i < j < |variants| ==> Rank(ShapeKind(variants[i])) < Rank(ShapeKind(variants[j])))
  }

  /** Every union in the shape has at least two variants, ordered by kind. */
  ghost predicate Canonical(shape: Shape)
    decreases shape
  {
    match shape
    case Scalar(_) => true
    case Unknown => true
    case EncodedJson(decoded) => Canonical(decoded)
    case ArrayOf(items) => Canonical(items)
    case ObjectOf(fields) => forall key :: key in fields ==> Canonical(fields[key].shape)
    case Union(variants) =>
      |variants| >= 2 && Ordered(variants) && forall i :: 0 <= i < |variants| ==> Canonical(variants[i])
  }

  lemma {:induction false} CanonicalIsNormal(shape: Shape)
    requires Canonical(shape)
    ensures Normal(shape)
    decreases shape
  {
    match shape
    case Scalar(_) =>
    case Unknown =>
    case EncodedJson(decoded) => CanonicalIsNormal(decoded);
    case ArrayOf(items) => CanonicalIsNormal(items);
    case ObjectOf(fields) =>
      forall key | key in fields ensures Normal(fields[key].shape) {
        CanonicalIsNormal(fields[key].shape);
      }
    case Union(variants) =>
      forall i | 0 <= i < |variants| ensures Normal(variants[i]) {
        CanonicalIsNormal(variants[i]);
      }
  }

  /** Every sample has the inferred shape. */
  lemma {:induction false} Sound(parse: Parser, values: seq<Json>, sample: Json)
    requires Shrinks(parse) && sample in values
    ensures Conforms(parse, sample, Infer(parse, values))
    decreases HeaviestOf(values), if Uniform(values) then 0 else 1, 1, 0
  {
    KindIff(sample, KindOf(sample));
    if !Uniform(values) {
      var kind := KindOf(sample);
      EveryKindSorted(kind);
      var i := PartOf(parse, values, SORTED_KINDS, kind);
      PartShrinks(values, kind);
      Sound(parse, OfKind(values, kind), sample);
      assert Conforms(parse, sample, Infer(parse, values).variants[i]);
    } else {
      match KindOf(values[0])
      case ObjectKind =>
        forall key | key in sample.fields
          ensures key in KeysOf(values)
          ensures Present(values, key) != [] && Conforms(parse, sample.fields[key], Infer(parse, Present(values, key)))
        {
          FieldsShrink(values, key);
          Sound(parse, Present(values, key), sample.fields[key]);
        }
      case ArrayKind =>
        forall x | x in sample.items
          ensures ItemsOf(values) != [] && Conforms(parse, x, Infer(parse, ItemsOf(values)))
        {
          assert x in ItemsOf(values);
          ItemsShrink(values);
          Sound(parse, ItemsOf(values), x);
        }
      case StringKind =>
        var decoded := DecodeAll(parse, values);
        if decoded.Some? {
          DecodedShrinks(parse, values);
          Sound(parse, decoded.value, Decode(parse, sample.text).value);
          EncodedIff(parse, sample, Infer(parse, decoded.value));
        }
      case _ =>
    }
  }

  lemma EveryKindSorted(kind: Kind)
    ensures kind in SORTED_KINDS
  {
    match kind
    case ArrayKind => assert SORTED_KINDS[0] == kind;
    case BooleanKind => assert SORTED_KINDS[1] == kind;
    case IntegerKind => assert SORTED_KINDS[2] == kind;
    case NullKind => assert SORTED_KINDS[3] == kind;
    case NumberKind => assert SORTED_KINDS[4] == kind;
    case ObjectKind => assert SORTED_KINDS[5] == kind;
    case StringKind => assert SORTED_KINDS[6] == kind;
  }

  /** A conforming value has the kind of a shape that is not a union. */
  lemma ConformingKind(parse: Parser, value: Json, shape: Shape)
    requires !shape.Union? && Conforms(parse, value, shape)
    ensures !shape.Unknown? && ShapeKind(shape) == KindOf(value)
  {
    KindIff(value, ShapeKind(if shape.Unknown? then Scalar(NullKind) else shape));
  }

  /** Inferred unions have at least two variants, of distinct kinds in the order of their names, and no nested union. */
  lemma {:induction false} InferredIsCanonical(parse: Parser, values: seq<Json>)
    requires values != [] && Shrinks(parse)
    ensures Canonical(Infer(parse, values))
    ensures Uniform(values) ==> var shape := Infer(parse, values);
      !shape.Union? && !shape.Unknown? && ShapeKind(shape) == KindOf(values[0])
    decreases HeaviestOf(values), if Uniform(values) then 0 else 1, 1, 0
  {
    if !Uniform(values) {
      PartsAreCanonical(parse, values, SORTED_KINDS);
      TwoParts(parse, values);
    } else {
      match KindOf(values[0])
      case ObjectKind =>
        forall key | key in KeysOf(values)
          ensures Present(values, key) != [] && Canonical(Infer(parse, Present(values, key)))
        {
          FieldsShrink(values, key);
          InferredIsCanonical(parse, Present(values, key));
        }
      case ArrayKind =>
        if ItemsOf(values) != [] {
          ItemsShrink(values);
          InferredIsCanonical(parse, ItemsOf(values));
        }
      case StringKind =>
        var decoded := DecodeAll(parse, values);
        if decoded.Some? {
          DecodedShrinks(parse, values);
          InferredIsCanonical(parse, decoded.value);
        }
      case _ =>
    }
  }

  ghost predicate CanonicalParts(parts: seq<Shape>, kinds: seq<Kind>) {
    && Ordered(parts)
    && forall i :: 0 <= i < |parts| ==> Canonical(parts[i]) && ShapeKind(parts[i]) in kinds
  }

  lemma {:induction false} PartsAreCanonical(parse: Parser, values: seq<Json>, kinds: seq<Kind>)
    requires values != [] && Shrinks(parse)
    requires forall i, j :: 0 <= i < j < |kinds| ==> Rank(kinds[i]) < Rank(kinds[j])
    ensures CanonicalParts(InferParts(parse, values, kinds), kinds)
    decreases HeaviestOf(values), 1, 0, |kinds|
  {
    hide CanonicalParts, Canonical, Infer, InferParts, OfKind, HasKind;
    if kinds == [] {
      NoParts(parse, values);
    } else {
      var front, kind := kinds[..|kinds| - 1], kinds[|kinds| - 1];
      var parts := InferParts(parse, values, front);
      PartsAreCanonical(parse, values, front);
      PartsWiden(parts, front, kind);
      if HasKind(values, kind) {
        var part := OfKind(values, kind);
        PartShrinks(values, kind);
        InferredIsCanonical(parse, part);
        assert part[0] in part;
        PartsExtend(parts, front, kind, Infer(parse, part));
      }
      assert front + [kind] == kinds && parts + [] == parts;
      PartsUnfold(parse, values, kinds);
    }
  }

  lemma PartsUnfold(parse: Parser, values: seq<Json>, kinds: seq<Kind>)
    requires values != [] && Shrinks(parse) && kinds != []
    ensures var kind := kinds[|kinds| - 1];
      && (HasKind(values, kind) ==> OfKind(values, kind) != [])
      && InferParts(parse, values, kinds) == InferParts(parse, values, kinds[..|kinds| - 1])
        + if HasKind(values, kind) then [Infer(parse, OfKind(values, kind))] else []
  {
    var kind := kinds[|kinds| - 1];
    if HasKind(values, kind) {
      PartShrinks(values, kind);
    }
  }

  lemma NoParts(parse: Parser, values: seq<Json>)
    requires values != [] && Shrinks(parse)
    ensures InferParts(parse, values, []) == [] && CanonicalParts([], [])
  {
  }

  lemma PartsWiden(parts: seq<Shape>, front: seq<Kind>, kind: Kind)
    requires CanonicalParts(parts, front)
    ensures CanonicalParts(parts, front + [kind])
  {
    hide Canonical;
  }

  lemma PartsExtend(parts: seq<Shape>, front: seq<Kind>, kind: Kind, shape: Shape)
    requires CanonicalParts(parts, front) && forall i :: 0 <= i < |front| ==> Rank(front[i]) < Rank(kind)
    requires !shape.Union? && !shape.Unknown? && Canonical(shape) && ShapeKind(shape) == kind
    ensures CanonicalParts(parts + [shape], front + [kind])
  {
    hide Canonical, Rank;
  }

  /** Samples of more than one kind have at least two variants. */
  lemma TwoParts(parse: Parser, values: seq<Json>)
    requires values != [] && Shrinks(parse) && !Uniform(values)
    ensures |InferParts(parse, values, SORTED_KINDS)| >= 2
  {
    var v :| v in values && KindOf(v) != KindOf(values[0]);
    var a, b := KindOf(values[0]), KindOf(v);
    EveryKindSorted(a);
    EveryKindSorted(b);
    assert HasKind(values, a) && HasKind(values, b);
    CountParts(parse, values, SORTED_KINDS, a, b);
  }

  lemma {:induction false} CountParts(parse: Parser, values: seq<Json>, kinds: seq<Kind>, a: Kind, b: Kind)
    requires values != [] && Shrinks(parse) && HasKind(values, a) && HasKind(values, b) && a != b
    ensures a in kinds || b in kinds ==> |InferParts(parse, values, kinds)| >= 1
    ensures a in kinds && b in kinds ==> |InferParts(parse, values, kinds)| >= 2
    decreases |kinds|
  {
    if kinds != [] {
      CountParts(parse, values, kinds[..|kinds| - 1], a, b);
      hide Infer, HasKind;
    }
  }

  lemma InferredIsNormal(parse: Parser, values: seq<Json>)
    requires values != [] && Shrinks(parse)
    ensures Normal(Infer(parse, values))
    ensures Uniform(values) ==> var shape := Infer(parse, values);
      !shape.Union? && !shape.Unknown? && ShapeKind(shape) == KindOf(values[0])
  {
    InferredIsCanonical(parse, values);
    CanonicalIsNormal(Infer(parse, values));
  }

  /**
   * The inferred shape is principal: whatever normal shape describes all samples also describes
   * every value of the inferred shape.
   */
  lemma {:induction false} Least(parse: Parser, values: seq<Json>, shape: Shape, value: Json)
    requires values != [] && Shrinks(parse) && Normal(shape)
    requires forall v :: v in values ==> Conforms(parse, v, shape)
    requires Conforms(parse, value, Infer(parse, values))
    ensures Conforms(parse, value, shape)
    decreases HeaviestOf(values), if Uniform(values) then 0 else 1, shape, 1
  {
    if !Uniform(values) {
      var variants := Infer(parse, values).variants;
      var i :| 0 <= i < |variants| && Conforms(parse, value, variants[i]);
      var kind := PartKind(parse, values, SORTED_KINDS, i);
      PartShrinks(values, kind);
      Least(parse, OfKind(values, kind), shape, value);
    } else if shape.Union? {
      var i := CommonVariant(parse, values, shape);
      Least(parse, values, shape.variants[i], value);
    } else {
      ConformingKind(parse, values[0], shape);
      InferredIsNormal(parse, values);
      ConformingKind(parse, value, Infer(parse, values));
      if shape.ObjectOf? {
        LeastObject(parse, values, shape, value);
      } else if shape.ArrayOf? {
        LeastArray(parse, values, shape, value);
      } else if shape.EncodedJson? {
        LeastText(parse, values, shape, value);
      }
    }
  }

  /** Samples of one kind all use the one variant of that kind. */
  lemma CommonVariant(parse: Parser, values: seq<Json>, shape: Shape) returns (i: nat)
    requires values != [] && Uniform(values) && shape.Union? && Normal(shape)
    requires forall v :: v in values ==> Conforms(parse, v, shape)
    ensures i < |shape.variants| && forall v :: v in values ==> Conforms(parse, v, shape.variants[i])
  {
    assert Conforms(parse, values[0], shape);
    i :| 0 <= i < |shape.variants| && Conforms(parse, values[0], shape.variants[i]);
    ConformingKind(parse, values[0], shape.variants[i]);
    forall v | v in values ensures Conforms(parse, v, shape.variants[i]) {
      var j :| 0 <= j < |shape.variants| && Conforms(parse, v, shape.variants[j]);
      ConformingKind(parse, v, shape.variants[j]);
      assert i == j;
    }
  }

  lemma LeastArray(parse: Parser, values: seq<Json>, shape: Shape, value: Json)
    requires values != [] && Shrinks(parse) && Uniform(values) && shape.ArrayOf? && Normal(shape)
    requires forall v :: v in values ==> v.Array? && Conforms(parse, v, shape)
    requires value.Array? && Conforms(parse, value, Infer(parse, values))
    ensures Conforms(parse, value, shape)
    decreases HeaviestOf(values), 0, shape, 0
  {
    UnfoldArray(parse, values);
    forall x | x in value.items ensures Conforms(parse, x, shape.items) {
      ItemsShrink(values);
      forall y | y in ItemsOf(values) ensures Conforms(parse, y, shape.items) {
        var v := ItemFrom(values, y);
      }
      Least(parse, ItemsOf(values), shape.items, x);
    }
  }

  lemma EncodedDecodes(parse: Parser, values: seq<Json>, shape: Shape)
    requires shape.EncodedJson? && forall v :: v in values ==> v.Text? && Conforms(parse, v, shape)
    ensures DecodeAll(parse, values).Some?
  {
    hide IsDocument, Decode;
    forall v | v in values ensures Decode(parse, v.text).Some? {
      EncodedIff(parse, v, shape.decoded);
    }
  }

  lemma LeastText(parse: Parser, values: seq<Json>, shape: Shape, value: Json)
    requires values != [] && Shrinks(parse) && Uniform(values) && shape.EncodedJson? && Normal(shape)
    requires forall v :: v in values ==> v.Text? && Conforms(parse, v, shape)
    requires value.Text? && Conforms(parse, value, Infer(parse, values))
    ensures Conforms(parse, value, shape)
    decreases HeaviestOf(values), 0, shape, 0
  {
    hide IsDocument, Decode;
    UnfoldText(parse, values);
    EncodedDecodes(parse, values, shape);
    DecodedShrinks(parse, values);
    var decoded := DecodeAll(parse, values).value;
    forall y | y in decoded ensures Conforms(parse, y, shape.decoded) {
      var v := DecodedFrom(parse, values, y);
      EncodedIff(parse, v, shape.decoded);
    }
    EncodedIff(parse, value, Infer(parse, decoded));
    EncodedIff(parse, value, shape.decoded);
    Least(parse, decoded, shape.decoded, Decode(parse, value.text).value);
  }

  lemma LeastObject(parse: Parser, values: seq<Json>, shape: Shape, value: Json)
    requires values != [] && Shrinks(parse) && Uniform(values) && shape.ObjectOf? && Normal(shape)
    requires forall v :: v in values ==> v.Object? && Conforms(parse, v, shape)
    requires value.Object? && Conforms(parse, value, Infer(parse, values))
    ensures Conforms(parse, value, shape)
    decreases HeaviestOf(values), 0, shape, 0
  {
    UnfoldObject(parse, values);
    var fields := InferFields(parse, values, KeysOf(values));
    forall key | key in shape.fields && shape.fields[key].required ensures key in value.fields {
      assert forall v :: v in values ==> key in v.fields;
      assert values[0] in values && key in KeysOf(values);
      assert key in fields && fields[key].required;
    }
    forall key | key in value.fields
      ensures key in shape.fields && Conforms(parse, value.fields[key], shape.fields[key].shape)
    {
      assert key in KeysOf(values);
      FieldsShrink(values, key);
      var present := Present(values, key);
      forall x | x in present ensures key in shape.fields && Conforms(parse, x, shape.fields[key].shape) {
        var v := PresentFrom(values, key, x);
      }
      assert present[0] in present;
      Least(parse, present, shape.fields[key].shape, value.fields[key]);
    }
  }

  /** More samples never shrink the set of values that conform to the inferred shape. */
  lemma Monotone(parse: Parser, fewer: seq<Json>, more: seq<Json>, value: Json)
    requires fewer != [] && Shrinks(parse)
    requires forall v :: v in fewer ==> v in more
    requires Conforms(parse, value, Infer(parse, fewer))
    ensures more != [] && Conforms(parse, value, Infer(parse, more))
  {
    assert fewer[0] in more;
    forall v | v in fewer ensures Conforms(parse, v, Infer(parse, more)) {
      Sound(parse, more, v);
    }
    InferredIsNormal(parse, more);
    Least(parse, fewer, Infer(parse, more), value);
  }

  /** The shape depends on the set of samples only: not on their order, not on repetition. */
  lemma {:induction false} DependsOnSet(parse: Parser, values: seq<Json>, others: seq<Json>)
    requires values != [] && others != [] && Shrinks(parse)
    requires forall v :: v in values <==> v in others
    ensures Infer(parse, values) == Infer(parse, others)
    decreases HeaviestOf(values), if Uniform(values) then 0 else 1, 1, 0
  {
    assert Uniform(values) <==> Uniform(others);
    if !Uniform(values) {
      SameParts(parse, values, others, SORTED_KINDS);
    } else {
      assert values[0] in others && others[0] in values;
      match KindOf(values[0])
      case ObjectKind =>
        assert KeysOf(values) == KeysOf(others);
        UnfoldObject(parse, values);
        UnfoldObject(parse, others);
        SameFields(parse, values, others, KeysOf(values));
      case ArrayKind =>
        SameItems(values, others);
        SameItems(others, values);
        UnfoldArray(parse, values);
        UnfoldArray(parse, others);
        if ItemsOf(values) != [] {
          assert ItemsOf(values)[0] in ItemsOf(others);
          ItemsShrink(values);
          DependsOnSet(parse, ItemsOf(values), ItemsOf(others));
        }
      case StringKind =>
        assert DecodeAll(parse, values).Some? <==> DecodeAll(parse, others).Some?;
        if DecodeAll(parse, values).Some? {
          DecodedShrinks(parse, values);
          DecodedShrinks(parse, others);
          SameDecoded(parse, values, others);
          SameDecoded(parse, others, values);
          DependsOnSet(parse, DecodeAll(parse, values).value, DecodeAll(parse, others).value);
        }
      case _ =>
    }
  }

  lemma SameFields(parse: Parser, values: seq<Json>, others: seq<Json>, keys: set<string>)
    requires values != [] && others != [] && Shrinks(parse)
    requires forall v :: v in values ==> v.Object?
    requires forall v :: v in values <==> v in others
    requires keys <= KeysOf(values) && keys <= KeysOf(others)
    ensures InferFields(parse, values, keys) == InferFields(parse, others, keys)
    decreases HeaviestOf(values), 0, 0, 1
  {
    forall key | key in keys
      ensures InferFields(parse, values, keys)[key] == InferFields(parse, others, keys)[key]
    {
      SameField(parse, values, others, key);
    }
  }

  lemma SameField(parse: Parser, values: seq<Json>, others: seq<Json>, key: string)
    requires values != [] && others != [] && Shrinks(parse)
    requires forall v :: v in values ==> v.Object?
    requires forall v :: v in values <==> v in others
    requires key in KeysOf(values)
    ensures Present(values, key) != [] && Present(others, key) != []
    ensures |Present(values, key)| == |values| <==> |Present(others, key)| == |others|
    ensures Infer(parse, Present(values, key)) == Infer(parse, Present(others, key))
    decreases HeaviestOf(values), 0, 0, 0
  {
    FieldsShrink(values, key);
    FieldsShrink(others, key);
    SamePresent(values, others, key);
    SamePresent(others, values, key);
    DependsOnSet(parse, Present(values, key), Present(others, key));
  }

  lemma {:induction false} SameParts(parse: Parser, values: seq<Json>, others: seq<Json>, kinds: seq<Kind>)
    requires values != [] && others != [] && Shrinks(parse)
    requires forall v :: v in values <==> v in others
    ensures InferParts(parse, values, kinds) == InferParts(parse, others, kinds)
    decreases HeaviestOf(values), 1, 0, |kinds|
  {
    if kinds != [] {
      var kind := kinds[|kinds| - 1];
      SameParts(parse, values, others, kinds[..|kinds| - 1]);
      assert HasKind(values, kind) <==> HasKind(others, kind);
      if HasKind(values, kind) {
        PartShrinks(values, kind);
        PartShrinks(others, kind);
        DependsOnSet(parse, OfKind(values, kind), OfKind(others, kind));
      }
    }
  }

  lemma SamePresent(values: seq<Json>, others: seq<Json>, key: string)
    requires forall v :: v in values ==> v in others
    requires forall v :: v in others ==> v.Object?
    ensures forall x :: x in Present(values, key) ==> x in Present(others, key)
    ensures |Present(others, key)| == |others| ==> |Present(values, key)| == |values|
  {
    forall x | x in Present(values, key) ensures x in Present(others, key) {
      var v := PresentFrom(values, key, x);
    }
  }

  lemma SameItems(values: seq<Json>, others: seq<Json>)
    requires forall v :: v in values ==> v in others
    requires forall v :: v in others ==> v.Array?
    ensures forall x :: x in ItemsOf(values) ==> x in ItemsOf(others)
    ensures ItemsOf(others) == [] ==> ItemsOf(values) == []
  {
    forall x | x in ItemsOf(values) ensures x in ItemsOf(others) {
      var v := ItemFrom(values, x);
    }
    if ItemsOf(values) != [] {
      assert ItemsOf(values)[0] in ItemsOf(others);
    }
  }

  lemma SameDecoded(parse: Parser, values: seq<Json>, others: seq<Json>)
    requires forall v :: v in values ==> v in others
    requires forall v :: v in others ==> v.Text?
    requires DecodeAll(parse, values).Some? && DecodeAll(parse, others).Some?
    ensures forall x :: x in DecodeAll(parse, values).value ==> x in DecodeAll(parse, others).value
  {
    forall x | x in DecodeAll(parse, values).value ensures x in DecodeAll(parse, others).value {
      var v := DecodedFrom(parse, values, x);
    }
  }
}
