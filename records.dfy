/**
 * The record type `T` as the core sees it through reflection: an explicit
 * table of public instance properties, records as property-name to value
 * maps, and the lambda selectors callers pass to the fluent API.
 */
module Records {
  import opened Wrappers
  import opened Values

  /** The declared type of a property, as ConvertValue dispatches on it; `T` and `T?` dispatch alike. */
  datatype TargetType =
    | StringType
    | IntType
    | DecimalType
    | DateTimeType
    | BoolType
    | OtherType(name: string)

  /** A public property: its name, its declared type, and whether it has a set accessor. */
  datatype Property = Property(name: string, propertyType: TargetType, settable: bool)

  /** An instance of `T`: the value of each property by name. */
  type Record = map<string, Value>

  /**
   * The record type `T`.  `properties` are its public instance properties in
   * declaration order (GetProperties(Public | Instance)); `staticCount` is how
   * many public static properties it also has (GetProperties() lists both);
   * `initial` is what `new T()` yields.
   */
  datatype Schema = Schema(properties: seq<Property>, staticCount: nat, initial: Record)

  /**
   * A lambda `x => ...` handed to MapColumn or WithColumn, by the shape of its
   * expression body: a bare member access `x.Name`; a member access boxed by
   * an implicit conversion to object (`x => x.Id` typed Func<T, object> with
   * a value-typed Id); or any other computation.
   */
  datatype Selector =
    | Member(name: string)
    | Converted(name: string)
    | Computed(f: Record -> Value)

  /** PropertyInfo.GetValue: a property the record does not hold reads as null. */
  function Get(r: Record, name: string): Value {
    if name in r then r[name] else Null
  }

  /** typeof(T).GetProperty(name): the public property with that exact name, if any. */
  function FindProperty(ps: seq<Property>, name: string): (r: Option<Property>)
    ensures r.Some? ==> r.value in ps && r.value.name == name
    ensures r.None? ==> forall p :: p in ps ==> p.name != name
    decreases |ps|
  {
    if ps == [] then None
    else if ps[0].name == name then Some(ps[0])
    else FindProperty(ps[1..], name)
  }

  /** The compiled selector applied to a record. */
  function Eval(s: Selector, r: Record): Value {
    match s
    case Member(name) => Get(r, name)
    case Converted(name) => Get(r, name)
    case Computed(f) => f(r)
  }
}
