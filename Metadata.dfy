/** The part of a .NET module's metadata that the visibility rewriter reads and
    writes: the access bit-fields of ECMA-335 Partition II, custom-attribute lists,
    CIL method bodies, and the type, method and field definitions that own them.

    Everything the rewriter only reads (names, the nesting, enum, interface and
    compiler-generated status, the member lists) is a `const`; what it edits in
    place (the flags word, the custom-attribute list, the body and the
    no-inlining bit) is a `var`. */
module Metadata {

  datatype Option<+T> = None | Some(value: T)

  // TypeAttributes, ECMA-335 Partition II section 23.1.15 (a 4-byte word).
  const VisibilityMask: bv32 := 0x7
  const NotPublic: bv32 := 0x0
  const TypePublic: bv32 := 0x1
  const NestedPublic: bv32 := 0x2

  // MethodAttributes, ECMA-335 Partition II section 23.1.10 (a 2-byte word).
  const MemberAccessMask: bv16 := 0x7
  const CompilerControlled: bv16 := 0x0
  const MethodPublic: bv16 := 0x6

  // FieldAttributes, ECMA-335 Partition II section 23.1.5 (a 2-byte word).
  const FieldAccessMask: bv16 := 0x7
  const PrivateScope: bv16 := 0x0
  const FieldPublic: bv16 := 0x6

  /** `flags &= ~mask; flags |= value` on a TypeAttributes word: the sub-mask
      becomes `value` and every bit outside it is kept. */
  function WithSubMask32(flags: bv32, mask: bv32, value: bv32): (r: bv32)
    requires value & !mask == 0
    ensures r & mask == value
    ensures r & !mask == flags & !mask
  {
    (flags & !mask) | value
  }

  /** The same edit on a MethodAttributes or FieldAttributes word. */
  function WithSubMask16(flags: bv16, mask: bv16, value: bv16): (r: bv16)
    requires value & !mask == 0
    ensures r & mask == value
    ensures r & !mask == flags & !mask
  {
    (flags & !mask) | value
  }

  /** A CIL opcode (ECMA-335 Partition III); operands are not modelled. */
  datatype CilOpCode = CilOpCode(value: bv16)

  const Ldnull := CilOpCode(0x14)
  const Throw := CilOpCode(0x7A)

  /** The body a stripped method gets: push null, throw it. */
  const ThrowNullBody: seq<CilOpCode> := [Ldnull, Throw]

  /** A custom attribute attached to a definition. The marker the rewriter
      appends carries the access sub-mask the definition had before; any other
      attribute is known only by the full name of its type. */
  datatype CustomAttribute =
    | OriginalTypeAttributes(visibility: bv32)
    | OriginalMethodAttributes(access: bv16)
    | OriginalFieldAttributes(access: bv16)
    | OtherAttribute(typeFullName: string)

  /** The mutable part of a method, of a field and of a type, as values. */
  datatype MethodState = MethodState(
    attributes: bv16,
    customAttributes: seq<CustomAttribute>,
    body: Option<seq<CilOpCode>>,
    noInlining: bool)

  datatype FieldState = FieldState(attributes: bv16, customAttributes: seq<CustomAttribute>)

  datatype TypeState = TypeState(attributes: bv32, customAttributes: seq<CustomAttribute>)

  class MethodDef {
    const fullName: string
    const isCompilerGenerated: bool
    /** The MethodAttributes word. */
    var attributes: bv16
    var customAttributes: seq<CustomAttribute>
    /** The method body, if the method has one. */
    var body: Option<seq<CilOpCode>>
    /** The NoInlining bit of the implementation flags, a word of its own. */
    var noInlining: bool

    constructor (fullName: string, isCompilerGenerated: bool, attributes: bv16,
                 customAttributes: seq<CustomAttribute>, body: Option<seq<CilOpCode>>, noInlining: bool)
      ensures this.fullName == fullName && this.isCompilerGenerated == isCompilerGenerated
      ensures State() == MethodState(attributes, customAttributes, body, noInlining)
    {
      this.fullName := fullName;
      this.isCompilerGenerated := isCompilerGenerated;
      this.attributes := attributes;
      this.customAttributes := customAttributes;
      this.body := body;
      this.noInlining := noInlining;
    }

    function State(): (s: MethodState)
      reads this
    {
      MethodState(attributes, customAttributes, body, noInlining)
    }
  }

  class FieldDef {
    const name: string
    const fullName: string
    const isCompilerGenerated: bool
    /** The FieldAttributes word. */
    var attributes: bv16
    var customAttributes: seq<CustomAttribute>

    constructor (name: string, fullName: string, isCompilerGenerated: bool, attributes: bv16,
                 customAttributes: seq<CustomAttribute>)
      ensures this.name == name && this.fullName == fullName
      ensures this.isCompilerGenerated == isCompilerGenerated
      ensures State() == FieldState(attributes, customAttributes)
    {
      this.name := name;
      this.fullName := fullName;
      this.isCompilerGenerated := isCompilerGenerated;
      this.attributes := attributes;
      this.customAttributes := customAttributes;
    }

    function State(): (s: FieldState)
      reads this
    {
      FieldState(attributes, customAttributes)
    }
  }

  /** A property refers to its accessors by identity; they are methods of the
      type that declares the property. */
  datatype PropertyDef = PropertyDef(getMethod: Option<MethodDef>, setMethod: Option<MethodDef>)

  datatype EventDef = EventDef(name: string)

  class TypeDef {
    const fullName: string
    const isNested: bool
    const isEnum: bool
    const isInterface: bool
    const isCompilerGenerated: bool
    const methods: seq<MethodDef>
    const fields: seq<FieldDef>
    const properties: seq<PropertyDef>
    const events: seq<EventDef>
    /** The TypeAttributes word. */
    var attributes: bv32
    var customAttributes: seq<CustomAttribute>

    constructor (fullName: string, isNested: bool, isEnum: bool, isInterface: bool,
                 isCompilerGenerated: bool, attributes: bv32, customAttributes: seq<CustomAttribute>,
                 methods: seq<MethodDef>, fields: seq<FieldDef>,
                 properties: seq<PropertyDef>, events: seq<EventDef>)
      ensures this.fullName == fullName && this.isNested == isNested
      ensures this.isEnum == isEnum && this.isInterface == isInterface
      ensures this.isCompilerGenerated == isCompilerGenerated
      ensures this.methods == methods && this.fields == fields
      ensures this.properties == properties && this.events == events
      ensures State() == TypeState(attributes, customAttributes)
    {
      this.fullName := fullName;
      this.isNested := isNested;
      this.isEnum := isEnum;
      this.isInterface := isInterface;
      this.isCompilerGenerated := isCompilerGenerated;
      this.methods := methods;
      this.fields := fields;
      this.properties := properties;
      this.events := events;
      this.attributes := attributes;
      this.customAttributes := customAttributes;
    }

    function State(): (s: TypeState)
      reads this
    {
      TypeState(attributes, customAttributes)
    }
  }

  predicate Distinct<T(==)>(s: seq<T>)
  {
    forall i, j :: 0 <= i < j < |s| ==> s[i] != s[j]
  }

  /** A type owns its methods and fields once each, and every accessor a
      property names is one of the type's own methods. */
  predicate OwnsMembers(t: TypeDef)
  {
    Distinct(t.methods) && Distinct(t.fields)
    && (forall p :: p in t.properties && p.getMethod.Some? ==> p.getMethod.value in t.methods)
    && (forall p :: p in t.properties && p.setMethod.Some? ==> p.setMethod.value in t.methods)
  }

  /** The types of a module, as a walk over all of them (nested ones included)
      lists them: each type once, each definition owned by exactly one type. */
  predicate OwnsDefinitions(types: seq<TypeDef>)
  {
    Distinct(types)
    && (forall t :: t in types ==> OwnsMembers(t))
    && (forall i, j, m :: 0 <= i < |types| && 0 <= j < |types| && i != j && m in types[i].methods
          ==> m !in types[j].methods)
    && (forall i, j, f :: 0 <= i < |types| && 0 <= j < |types| && i != j && f in types[i].fields
          ==> f !in types[j].fields)
  }
}
