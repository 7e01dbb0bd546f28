/** What the visibility rewriter does to each definition, as functions on values:
    the rule for one method, the rule for one field, the rule for a type's own
    visibility, the outcome of processing one type on each of its definitions,
    and the outcome of the module walk. The lemmas state what these promise. */
module Rules {
  import opened Metadata

  datatype PublicizeTarget = Types | Methods | Fields

  datatype Options = Options(
    targets: set<PublicizeTarget>,
    publicizeCompilerGenerated: bool,
    includeOriginalAttributesAttribute: bool,
    strip: bool)

  /** The options used when the caller passes none: every target, compiler-generated
      definitions left alone, original access recorded, bodies kept. */
  const DefaultOptions := Options({Types, Methods, Fields}, false, true, false)

  function MethodAccess(attributes: bv16): (access: bv16) { attributes & MemberAccessMask }

  function FieldAccess(attributes: bv16): (access: bv16) { attributes & FieldAccessMask }

  function TypeVisibility(attributes: bv32): (visibility: bv32) { attributes & VisibilityMask }

  /** The marker appended when the original access is recorded, or nothing. */
  function Marker(recordOriginal: bool, attribute: CustomAttribute): (markers: seq<CustomAttribute>)
  {
    if recordOriginal then [attribute] else []
  }

  // ---------------------------------------------------------------------------
  // One method

  /** The method rule rewrites a method exactly when it is neither compiler-controlled
      nor public and, unless the compiler-generated check is waived, it is not a
      compiler-generated method that the options leave alone. */
  predicate RewritesMethod(s: MethodState, isCompilerGenerated: bool, options: Options,
                           ignoreCompilerGeneratedCheck: bool)
  {
    MethodAccess(s.attributes) != CompilerControlled
    && MethodAccess(s.attributes) != MethodPublic
    && (ignoreCompilerGeneratedCheck || options.publicizeCompilerGenerated || !isCompilerGenerated)
  }

  function PublicizeMethodState(s: MethodState, isCompilerGenerated: bool, options: Options,
                                recordOriginal: bool, ignoreCompilerGeneratedCheck: bool): (r: MethodState)
    ensures r.attributes & !MemberAccessMask == s.attributes & !MemberAccessMask
    ensures MethodAccess(r.attributes)
            == if RewritesMethod(s, isCompilerGenerated, options, ignoreCompilerGeneratedCheck)
               then MethodPublic else MethodAccess(s.attributes)
    ensures r.customAttributes
            == s.customAttributes
               + if RewritesMethod(s, isCompilerGenerated, options, ignoreCompilerGeneratedCheck) && recordOriginal
                 then [OriginalMethodAttributes(MethodAccess(s.attributes))] else []
    ensures r.body == s.body && r.noInlining == s.noInlining
    ensures !RewritesMethod(s, isCompilerGenerated, options, ignoreCompilerGeneratedCheck) ==> r == s
  {
    if RewritesMethod(s, isCompilerGenerated, options, ignoreCompilerGeneratedCheck) then
      s.(attributes := WithSubMask16(s.attributes, MemberAccessMask, MethodPublic),
         customAttributes := s.customAttributes
                             + Marker(recordOriginal, OriginalMethodAttributes(MethodAccess(s.attributes))))
    else
      s
  }

  /** A method that has a body gets `ldnull; throw` and is marked not to be inlined. */
  function StripMethodState(s: MethodState): (r: MethodState)
    ensures r.attributes == s.attributes && r.customAttributes == s.customAttributes
    ensures r.body.Some? <==> s.body.Some?
    ensures s.body.Some? ==> r.body == Some(ThrowNullBody) && r.noInlining
    ensures s.body.None? ==> r == s
  {
    if s.body.Some? then s.(body := Some(ThrowNullBody), noInlining := true) else s
  }

  // ---------------------------------------------------------------------------
  // One field

  /** The field rule rewrites a field exactly when it is not private-scope, the mask
      (if any) lists it, it is not public, no event of its type has its name, and it
      is not a compiler-generated field that the options leave alone. */
  predicate RewritesField(s: FieldState, f: FieldDef, eventNames: set<string>,
                          maskFields: Option<seq<string>>, options: Options)
  {
    FieldAccess(s.attributes) != PrivateScope
    && (maskFields.None? || f.fullName in maskFields.value)
    && FieldAccess(s.attributes) != FieldPublic
    && f.name !in eventNames
    && (options.publicizeCompilerGenerated || !f.isCompilerGenerated)
  }

  function PublicizeFieldState(s: FieldState, f: FieldDef, eventNames: set<string>,
                               maskFields: Option<seq<string>>, options: Options,
                               recordOriginal: bool): (r: FieldState)
    ensures r.attributes & !FieldAccessMask == s.attributes & !FieldAccessMask
    ensures FieldAccess(r.attributes)
            == if RewritesField(s, f, eventNames, maskFields, options) then FieldPublic
               else FieldAccess(s.attributes)
    ensures r.customAttributes
            == s.customAttributes
               + if RewritesField(s, f, eventNames, maskFields, options) && recordOriginal
                 then [OriginalFieldAttributes(FieldAccess(s.attributes))] else []
    ensures !RewritesField(s, f, eventNames, maskFields, options) ==> r == s
  {
    if RewritesField(s, f, eventNames, maskFields, options) then
      s.(attributes := WithSubMask16(s.attributes, FieldAccessMask, FieldPublic),
         customAttributes := s.customAttributes
                             + Marker(recordOriginal, OriginalFieldAttributes(FieldAccess(s.attributes))))
    else
      s
  }

  // ---------------------------------------------------------------------------
  // A type's own visibility

  function PublicVisibility(isNested: bool): (visibility: bv32)
  {
    if isNested then NestedPublic else TypePublic
  }

  /** A top-level type that is not Public, or a nested type that is not NestedPublic. */
  predicate RewritesTypeVisibility(s: TypeState, isNested: bool)
  {
    (!isNested && TypeVisibility(s.attributes) != TypePublic)
    || (isNested && TypeVisibility(s.attributes) != NestedPublic)
  }

  function PublicizeTypeState(s: TypeState, isNested: bool, recordOriginal: bool): (r: TypeState)
    ensures r.attributes & !VisibilityMask == s.attributes & !VisibilityMask
    ensures TypeVisibility(r.attributes)
            == if RewritesTypeVisibility(s, isNested) then PublicVisibility(isNested)
               else TypeVisibility(s.attributes)
    ensures r.customAttributes
            == s.customAttributes
               + if RewritesTypeVisibility(s, isNested) && recordOriginal
                 then [OriginalTypeAttributes(TypeVisibility(s.attributes))] else []
    ensures !RewritesTypeVisibility(s, isNested) ==> r == s
  {
    if RewritesTypeVisibility(s, isNested) then
      s.(attributes := WithSubMask32(s.attributes, VisibilityMask, PublicVisibility(isNested)),
         customAttributes := s.customAttributes
                             + Marker(recordOriginal, OriginalTypeAttributes(TypeVisibility(s.attributes))))
    else
      s
  }

  // ---------------------------------------------------------------------------
  // Processing one type

  /** Strip applies to every type that is neither an enum nor an interface. */
  predicate StripsBodies(t: TypeDef, options: Options)
  {
    options.strip && !t.isEnum && !t.isInterface
  }

  /** Whether processing goes on past stripping: not for a compiler-generated
      type when the options leave those alone. */
  predicate ProcessesAccess(t: TypeDef, options: Options)
  {
    options.publicizeCompilerGenerated || !t.isCompilerGenerated
  }

  /** The full names of a list of definitions, in order. */
  function FullNames<T>(definitions: seq<T>, fullName: T -> string): (names: seq<string>)
    ensures |names| == |definitions|
    ensures forall k :: 0 <= k < |definitions| ==> names[k] == fullName(definitions[k])
  {
    seq(|definitions|, k requires 0 <= k < |definitions| => fullName(definitions[k]))
  }

  /** The full names of the mask type's methods, when there is a mask type. */
  function MaskMethods(maskType: Option<TypeDef>): (names: Option<seq<string>>)
  {
    if maskType.Some? then Some(FullNames(maskType.value.methods, (m: MethodDef) => m.fullName)) else None
  }

  function MaskFields(maskType: Option<TypeDef>): (names: Option<seq<string>>)
  {
    if maskType.Some? then Some(FullNames(maskType.value.fields, (f: FieldDef) => f.fullName)) else None
  }

  predicate MaskAdmits(names: Option<seq<string>>, fullName: string)
  {
    names.None? || fullName in names.value
  }

  function EventNames(t: TypeDef): (names: set<string>)
  {
    set e | e in t.events :: e.name
  }

  /** Some property of the list has `m` as its get or its set accessor. */
  predicate IsAccessor(properties: seq<PropertyDef>, m: MethodDef)
  {
    exists p :: p in properties && (p.getMethod == Some(m) || p.setMethod == Some(m))
  }

  /** The accessor pass over `properties`, in order, as it affects the method `m`:
      each time `m` is a get or a set accessor the method rule runs on it with the
      compiler-generated check waived. */
  function AccessorPass(properties: seq<PropertyDef>, m: MethodDef, s: MethodState,
                        options: Options, recordOriginal: bool): (r: MethodState)
    decreases |properties|
  {
    if properties == [] then s
    else
      var p := properties[|properties| - 1];
      var before := AccessorPass(properties[..|properties| - 1], m, s, options, recordOriginal);
      var afterGet := if p.getMethod == Some(m)
                      then PublicizeMethodState(before, m.isCompilerGenerated, options, recordOriginal, true)
                      else before;
      if p.setMethod == Some(m)
      then PublicizeMethodState(afterGet, m.isCompilerGenerated, options, recordOriginal, true)
      else afterGet
  }

  /** The state of the type's own flags and attributes after processing it. */
  function TypeOutcome(t: TypeDef, s: TypeState, options: Options, recordOriginal: bool): (r: TypeState)
  {
    if ProcessesAccess(t, options) && Types in options.targets
    then PublicizeTypeState(s, t.isNested, recordOriginal)
    else s
  }

  /** The method loop (when it reaches the method) and then the accessor pass (when
      the method is an accessor), on one method. */
  function MethodPasses(s: MethodState, isCompilerGenerated: bool, options: Options,
                        recordOriginal: bool, loopReaches: bool, accessorReaches: bool): (r: MethodState)
  {
    var looped := if loopReaches
                  then PublicizeMethodState(s, isCompilerGenerated, options, recordOriginal, false)
                  else s;
    if accessorReaches
    then PublicizeMethodState(looped, isCompilerGenerated, options, recordOriginal, true)
    else looped
  }

  /** The state of one of the type's methods after processing the type: strip, then
      the method loop (filtered by the mask type's method names), then, when
      compiler-generated definitions are left alone, the accessor pass. */
  function MethodOutcome(t: TypeDef, m: MethodDef, s: MethodState, maskType: Option<TypeDef>,
                         options: Options, recordOriginal: bool): (r: MethodState)
  {
    var stripped := if StripsBodies(t, options) then StripMethodState(s) else s;
    if !ProcessesAccess(t, options) || Methods !in options.targets then stripped
    else MethodPasses(stripped, m.isCompilerGenerated, options, recordOriginal,
                      MaskAdmits(MaskMethods(maskType), m.fullName),
                      !options.publicizeCompilerGenerated && IsAccessor(t.properties, m))
  }

  /** The state of one of the type's fields after processing the type. */
  function FieldOutcome(t: TypeDef, f: FieldDef, s: FieldState, maskType: Option<TypeDef>,
                        options: Options, recordOriginal: bool): (r: FieldState)
  {
    if ProcessesAccess(t, options) && Fields in options.targets
    then PublicizeFieldState(s, f, EventNames(t), MaskFields(maskType), options, recordOriginal)
    else s
  }

  // ---------------------------------------------------------------------------
  // The module walk

  /** Full names are unique among the mask module's types (building the lookup
      table from them fails otherwise). */
  predicate UniqueFullNames(types: seq<TypeDef>)
  {
    forall i, j :: 0 <= i < |types| && 0 <= j < |types| && types[i].fullName == types[j].fullName
      ==> types[i] == types[j]
  }

  /** The mask module's types keyed by full name. */
  function ToDictionary(types: seq<TypeDef>): (d: map<string, TypeDef>)
    requires UniqueFullNames(types)
    ensures forall t :: t in types ==> t.fullName in d && d[t.fullName] == t
    ensures forall name :: name in d ==> d[name] in types && d[name].fullName == name
  {
    map t | t in types :: t.fullName := t
  }

  /** The walk processes a type unless it is the synthesized attribute type, or a
      mask is given and has no type of the same full name. */
  predicate Visited(t: TypeDef, attributeType: TypeDef?, maskTypes: Option<map<string, TypeDef>>)
  {
    t != attributeType && (maskTypes.None? || t.fullName in maskTypes.value)
  }

  function MaskTypeOf(t: TypeDef, maskTypes: Option<map<string, TypeDef>>): (maskType: Option<TypeDef>)
  {
    if maskTypes.Some? && t.fullName in maskTypes.value then Some(maskTypes.value[t.fullName]) else None
  }

  function TypeResult(t: TypeDef, s: TypeState, attributeType: TypeDef?,
                      maskTypes: Option<map<string, TypeDef>>, options: Options): (r: TypeState)
  {
    if Visited(t, attributeType, maskTypes) then TypeOutcome(t, s, options, attributeType != null) else s
  }

  function MethodResult(t: TypeDef, m: MethodDef, s: MethodState, attributeType: TypeDef?,
                        maskTypes: Option<map<string, TypeDef>>, options: Options): (r: MethodState)
  {
    if Visited(t, attributeType, maskTypes)
    then MethodOutcome(t, m, s, MaskTypeOf(t, maskTypes), options, attributeType != null)
    else s
  }

  function FieldResult(t: TypeDef, f: FieldDef, s: FieldState, attributeType: TypeDef?,
                       maskTypes: Option<map<string, TypeDef>>, options: Options): (r: FieldState)
  {
    if Visited(t, attributeType, maskTypes)
    then FieldOutcome(t, f, s, MaskTypeOf(t, maskTypes), options, attributeType != null)
    else s
  }
}
