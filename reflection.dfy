/**
 * The reflection data the codec walks: property descriptors (FProperty and its subclasses), the
 * memory a descriptor describes, and the engine conversions the codec delegates leaves to.
 *
 * Memory is a value: the codec reads it through the descriptor, so a value of another shape reads
 * as the empty container of the expected kind (or the default value of a field).
 */
module Reflection {
  import opened Wrappers
  import opened JsonTree

  /** A declared field of a struct or class: GetAuthoredName(), GetName() and its descriptor. */
  datatype Field = Field(authored: string, name: string, prop: Prop)

  /** The descriptor kinds the walker distinguishes (CastField<...> in the codec). */
  datatype Prop =
    | ArrayProperty(inner: Prop)
    | SetProperty(elem: Prop)
    | MapProperty(key: Prop, value: Prop)
    | StructProperty(fields: seq<Field>)
      /** PropertyClass->IsNative(), the class name and the class's fields. */
    | ObjectProperty(native: bool, className: string, fields: seq<Field>)
    | BoolProperty
    | NumericProperty
    | StrProperty
    | OtherProperty

  /** One slot of a TSet's sparse storage; a dead slot keeps whatever it last held. */
  datatype Slot = Slot(live: bool, elem: Mem)

  /** One slot of a TMap's sparse storage. */
  datatype Pair = Pair(live: bool, key: Mem, value: Mem)

  /** A UObject: the runtime class and the values of its fields, in declaration order. */
  datatype Instance = Instance(cls: string, fields: seq<Mem>)

  datatype Mem =
      /** The bytes of a scalar (bool, number, string, enum, ...): opaque to the walker. */
    | Scalar(bytes: seq<bv8>)
    | ArrayMem(elems: seq<Mem>)
      /** `hashed` is false after AddDefaultValue_Invalid_NeedsRehash until Rehash runs. */
    | SetMem(slots: seq<Slot>, hashed: bool)
    | MapMem(pairs: seq<Pair>, hashed: bool)
    | StructMem(fields: seq<Mem>)
      /** An object pointer: null or the instance it points to. */
    | ObjectMem(target: Option<Instance>)

  /** The result of writing a tree into memory: the success flag and the memory afterwards. */
  datatype Decoded = Decoded(ok: bool, mem: Mem)

  /**
   * Engine code the codec calls and this model does not look into, as total functions:
   * FJsonObjectConverter (leaf conversion both ways, JsonObjectToUStruct), ExportTextItem,
   * StaticAllocateObject with the class constructor, the JSON reader, the JSON writer (its
   * verdict and the text it leaves in the bound string),
   * FString::SanitizeFloat and FCString::Atod.
   */
  datatype Foreign = Foreign(
    toJson: (Prop, Mem) -> Json,
    exportText: (Prop, Mem) -> string,
    fromJson: (Json, Prop, Mem) -> Decoded,
    objectToStruct: (seq<Member>, Prop, Instance) -> (bool, Instance),
    construct: Prop -> Instance,
    parse: string -> Option<Json>,
    serialize: Json -> (bool, string),
    sanitizeFloat: real -> string,
    atod: string -> real)

  /** The fields a struct or class descriptor declares (TFieldIterator). */
  function FieldList(p: Prop): seq<Field>
  {
    match p
    case StructProperty(fs) => fs
    case ObjectProperty(_, _, fs) => fs
    case _ => []
  }

  /** The value a freshly added container element or a constructed field holds. */
  function Default(p: Prop): (m: Mem)
    ensures p.StructProperty? ==> m.StructMem? && |m.fields| == |p.fields|
  {
    match p
    case ArrayProperty(_) => ArrayMem([])
    case SetProperty(_) => SetMem([], true)
    case MapProperty(_, _) => MapMem([], true)
    case StructProperty(fs) => StructMem(seq(|fs|, i requires 0 <= i < |fs| => Default(fs[i].prop)))
    case ObjectProperty(_, _, _) => ObjectMem(None)
    case _ => Scalar([])
  }

  /** FScriptArrayHelper's view of array memory. */
  function ElemsOf(m: Mem): seq<Mem>
  {
    if m.ArrayMem? then m.elems else []
  }

  /** FScriptSetHelper's view of set memory. */
  function SlotsOf(m: Mem): seq<Slot>
  {
    if m.SetMem? then m.slots else []
  }

  /** FScriptMapHelper's view of map memory. */
  function PairsOf(m: Mem): seq<Pair>
  {
    if m.MapMem? then m.pairs else []
  }

  /** GetObjectPropertyValue: the object a pointer refers to. */
  function TargetOf(m: Mem): Option<Instance>
  {
    if m.ObjectMem? then m.target else None
  }

  /** The memory of each declared field (ContainerPtrToValuePtr), one per field. */
  function FieldValues(vals: seq<Mem>, fs: seq<Field>): (r: seq<Mem>)
    ensures |r| == |fs|
    ensures forall i :: 0 <= i < |fs| && i < |vals| ==> r[i] == vals[i]
  {
    seq(|fs|, i requires 0 <= i < |fs| => if i < |vals| then vals[i] else Default(fs[i].prop))
  }

  /** The field memory of a struct value. */
  function StructFields(m: Mem, fs: seq<Field>): (r: seq<Mem>)
    ensures |r| == |fs|
  {
    FieldValues(if m.StructMem? then m.fields else [], fs)
  }

  /** Number of live slots: Helper.Num() of a set. */
  function LiveSlots(slots: seq<Slot>): (n: nat)
    ensures n <= |slots|
  {
    if slots == [] then 0 else (if slots[0].live then 1 else 0) + LiveSlots(slots[1..])
  }

  /** Number of live pairs: Helper.Num() of a map. */
  function LivePairs(pairs: seq<Pair>): (n: nat)
    ensures n <= |pairs|
  {
    if pairs == [] then 0 else (if pairs[0].live then 1 else 0) + LivePairs(pairs[1..])
  }

  /** FJsonValue::TryGetString: strings, numbers (SanitizeFloat) and booleans have a text form. */
  function TryGetString(j: Json, c: Foreign): (r: Option<string>)
    ensures r.Some? <==> j.String? || j.Number? || j.Bool?
    ensures j.String? ==> r == Some(j.s)
  {
    match j
    case String(s) => Some(s)
    case Number(n) => Some(c.sanitizeFloat(n))
    case Bool(b) => Some(if b then "true" else "false")
    case _ => None
  }
}
