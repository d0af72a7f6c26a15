/** JSON values, as the Rust transport and the Python contract script see them. */
module JsonModel {
  import opened Prelude

  datatype Json =
    | Null
    | Boolean(truth: bool)
    | Integer(whole: int)
    | Number(fraction: real)
    | Text(text: string)
    | Array(items: seq<Json>)
    | Object(fields: map<string, Json>)

  /** A measure no larger than the length of any JSON text that denotes the value. */
  ghost function Weight(value: Json): nat
    decreases value, 1
  {
    match value
    case Text(text) => |text| + 1
    case Array(items) => 1 + HeaviestOf(items)
    case Object(fields) => 1 + HeaviestField(value, fields.Keys)
    case _ => 1
  }

  ghost function HeaviestOf(values: seq<Json>): nat
    decreases values, 0
  {
    if values == [] then 0 else Max(Weight(values[0]), HeaviestOf(values[1..]))
  }

  ghost function HeaviestField(value: Json, keys: set<string>): nat
    requires value.Object? && keys <= value.fields.Keys
    decreases value, 0, keys
  {
    if keys == {} then 0
    else
      var key :| key in keys;
      Max(Weight(value.fields[key]), HeaviestField(value, keys - {key}))
  }

  lemma MemberWeight(values: seq<Json>, value: Json)
    requires value in values
    ensures Weight(value) <= HeaviestOf(values)
  {
    if value != values[0] {
      MemberWeight(values[1..], value);
    }
  }

  /** The heaviest member bounds the list, so a bound on members bounds the list. */
  lemma HeaviestBound(values: seq<Json>, bound: nat)
    requires forall value :: value in values ==> Weight(value) <= bound
    ensures HeaviestOf(values) <= bound
  {
    if values != [] {
      HeaviestBound(values[1..], bound);
    }
  }

  lemma FieldWeight(value: Json, keys: set<string>, key: string)
    requires value.Object? && keys <= value.fields.Keys && key in keys
    ensures Weight(value.fields[key]) <= HeaviestField(value, keys)
    decreases keys
  {
    var chosen :| chosen in keys && HeaviestField(value, keys)
      == Max(Weight(value.fields[chosen]), HeaviestField(value, keys - {chosen}));
    if key != chosen {
      FieldWeight(value, keys - {chosen}, key);
    }
  }
}
