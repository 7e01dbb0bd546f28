/** The visibility rewriter: it walks every type of a module and edits access
    bit-fields, custom-attribute lists and method bodies in place. Each method's
    postcondition ties the new state of every definition it may touch to the
    outcome the `Rules` module gives for that definition's old state. */
module AssemblyPublicizer {
  import opened Metadata
  import opened Rules
  import Properties

  /** A module, with its types as a walk over all of them (nested ones included)
      lists them. */
  datatype ModuleDef = ModuleDef(types: seq<TypeDef>)

  datatype AssemblyDef = AssemblyDef(manifestModule: Option<ModuleDef>)

  /** The types the rewrite walks: those of the assembly's manifest module. */
  function TypesOf(assembly: AssemblyDef): (types: seq<TypeDef>)
    requires assembly.manifestModule.Some?
  {
    assembly.manifestModule.value.types
  }

  /** The mask module's types, if a mask assembly with a manifest module is given. */
  function MaskModuleTypes(maskAssembly: Option<AssemblyDef>): (types: Option<seq<TypeDef>>)
  {
    if maskAssembly.Some? && maskAssembly.value.manifestModule.Some?
    then Some(maskAssembly.value.manifestModule.value.types)
    else None
  }

  /** Every definition the rewrite may touch: the types, their methods, their fields. */
  ghost function Footprint(types: seq<TypeDef>): (r: set<object>)
    ensures forall t :: t in types ==> t in r
    ensures forall t, m :: t in types && m in t.methods ==> m in r
    ensures forall t, f :: t in types && f in t.fields ==> f in r
  {
    (set t | t in types :: t as object)
    + (set t, m | t in types && m in t.methods :: m as object)
    + (set t, f | t in types && f in t.fields :: f as object)
  }

  /** The method rule: leave a compiler-controlled or public method alone, and a
      compiler-generated one unless the check is waived or the options ask for them;
      otherwise record the old access (when markers are on) and make it Public. */
  method PublicizeMethod(m: MethodDef, recordOriginal: bool, options: Options,
                         ignoreCompilerGeneratedCheck: bool)
    modifies m
    ensures m.State()
            == PublicizeMethodState(old(m.State()), m.isCompilerGenerated, options, recordOriginal,
                                    ignoreCompilerGeneratedCheck)
  {
    if m.attributes & MemberAccessMask == CompilerControlled {
      return;
    }
    if m.attributes & MemberAccessMask != MethodPublic {
      if !ignoreCompilerGeneratedCheck && !options.publicizeCompilerGenerated && m.isCompilerGenerated {
        return;
      }
      if recordOriginal {
        m.customAttributes := m.customAttributes + [OriginalMethodAttributes(m.attributes & MemberAccessMask)];
      }
      m.attributes := WithSubMask16(m.attributes, MemberAccessMask, MethodPublic);
    }
  }

  /** Strip: every method of the type that has a body gets `ldnull; throw` and NoInlining. */
  method StripBodies(t: TypeDef)
    requires Distinct(t.methods)
    modifies t.methods
    ensures forall k :: 0 <= k < |t.methods|
              ==> t.methods[k].State() == StripMethodState(old(t.methods[k].State()))
  {
    for i := 0 to |t.methods|
      invariant forall k :: 0 <= k < i
                  ==> t.methods[k].State() == StripMethodState(old(t.methods[k].State()))
      invariant forall k :: i <= k < |t.methods| ==> t.methods[k].State() == old(t.methods[k].State())
    {
      var m := t.methods[i];
      if m.body.Some? {
        var newBody := [];
        newBody := newBody + [Ldnull];
        newBody := newBody + [Throw];
        assert newBody == ThrowNullBody;
        m.body := Some(newBody);
        m.noInlining := true;
      }
    }
  }

  /** The method loop: the method rule on every method the mask type (if any) lists. */
  method PublicizeMethods(t: TypeDef, maskType: Option<TypeDef>, recordOriginal: bool, options: Options)
    requires Distinct(t.methods)
    modifies t.methods
    ensures forall k :: 0 <= k < |t.methods|
              ==> t.methods[k].State()
                  == if MaskAdmits(MaskMethods(maskType), t.methods[k].fullName)
                     then PublicizeMethodState(old(t.methods[k].State()), t.methods[k].isCompilerGenerated,
                                               options, recordOriginal, false)
                     else old(t.methods[k].State())
  {
    var maskMethods := MaskMethods(maskType);
    for i := 0 to |t.methods|
      invariant forall k :: 0 <= k < i
                  ==> t.methods[k].State()
                      == if MaskAdmits(maskMethods, t.methods[k].fullName)
                         then PublicizeMethodState(old(t.methods[k].State()), t.methods[k].isCompilerGenerated,
                                                   options, recordOriginal, false)
                         else old(t.methods[k].State())
      invariant forall k :: i <= k < |t.methods| ==> t.methods[k].State() == old(t.methods[k].State())
    {
      var m := t.methods[i];
      if maskMethods.Some? && m.fullName !in maskMethods.value {
        continue;
      }
      PublicizeMethod(m, recordOriginal, options, false);
    }
  }

  /** The accessor pass: the method rule, with the compiler-generated check waived,
      on the get and the set accessor of every property, whatever the mask says. */
  method PublicizeAccessors(t: TypeDef, recordOriginal: bool, options: Options)
    requires OwnsMembers(t)
    modifies t.methods
    ensures forall k :: 0 <= k < |t.methods|
              ==> t.methods[k].State()
                  == if IsAccessor(t.properties, t.methods[k])
                     then PublicizeMethodState(old(t.methods[k].State()), t.methods[k].isCompilerGenerated,
                                               options, recordOriginal, true)
                     else old(t.methods[k].State())
  {
    for i := 0 to |t.properties|
      invariant forall k :: 0 <= k < |t.methods|
                  ==> t.methods[k].State()
                      == AccessorPass(t.properties[..i], t.methods[k], old(t.methods[k].State()),
                                      options, recordOriginal)
    {
      var p := t.properties[i];
      assert t.properties[..i + 1][..i] == t.properties[..i];
      if p.getMethod.Some? {
        PublicizeMethod(p.getMethod.value, recordOriginal, options, true);
      }
      if p.setMethod.Some? {
        PublicizeMethod(p.setMethod.value, recordOriginal, options, true);
      }
    }
    assert t.properties[..|t.properties|] == t.properties;
    forall k | 0 <= k < |t.methods|
      ensures t.methods[k].State()
              == if IsAccessor(t.properties, t.methods[k])
                 then PublicizeMethodState(old(t.methods[k].State()), t.methods[k].isCompilerGenerated,
                                           options, recordOriginal, true)
                 else old(t.methods[k].State())
    {
      Properties.AccessorPassOnce(t.properties, t.methods[k], old(t.methods[k].State()), options, recordOriginal);
    }
  }

  /** The field loop: skip private-scope fields, fields the mask type (if any) does
      not list, public fields, event backing fields and (unless asked for)
      compiler-generated fields; make every other field Public. */
  method PublicizeFields(t: TypeDef, maskType: Option<TypeDef>, recordOriginal: bool, options: Options)
    requires Distinct(t.fields)
    modifies t.fields
    ensures forall k :: 0 <= k < |t.fields|
              ==> t.fields[k].State()
                  == PublicizeFieldState(old(t.fields[k].State()), t.fields[k], EventNames(t),
                                         MaskFields(maskType), options, recordOriginal)
  {
    var maskFields := MaskFields(maskType);
    var eventNames := EventNames(t);
    for i := 0 to |t.fields|
      invariant forall k :: 0 <= k < i
                  ==> t.fields[k].State()
                      == PublicizeFieldState(old(t.fields[k].State()), t.fields[k], eventNames,
                                             maskFields, options, recordOriginal)
      invariant forall k :: i <= k < |t.fields| ==> t.fields[k].State() == old(t.fields[k].State())
    {
      var f := t.fields[i];
      ghost var before := f.State();
      if FieldAccess(f.attributes) != PrivateScope
         && (maskFields.None? || f.fullName in maskFields.value)
         && FieldAccess(f.attributes) != FieldPublic
         && f.name !in eventNames
         && (options.publicizeCompilerGenerated || !f.isCompilerGenerated)
      {
        if recordOriginal {
          f.customAttributes := f.customAttributes + [OriginalFieldAttributes(FieldAccess(f.attributes))];
        }
        f.attributes := WithSubMask16(f.attributes, FieldAccessMask, FieldPublic);
      }
      assert f.State() == PublicizeFieldState(before, f, eventNames, maskFields, options, recordOriginal);
    }
  }

  /** The type's own visibility: a top-level type that is not Public, or a nested
      type that is not NestedPublic, gets a marker with its old visibility (when
      markers are on) and becomes Public or NestedPublic. */
  method PublicizeTypeVisibility(t: TypeDef, recordOriginal: bool)
    modifies t
    ensures t.State() == PublicizeTypeState(old(t.State()), t.isNested, recordOriginal)
  {
    if (!t.isNested && TypeVisibility(t.attributes) != TypePublic)
       || (t.isNested && TypeVisibility(t.attributes) != NestedPublic)
    {
      if recordOriginal {
        t.customAttributes := t.customAttributes + [OriginalTypeAttributes(TypeVisibility(t.attributes))];
      }
      t.attributes := WithSubMask32(t.attributes, VisibilityMask, if t.isNested then NestedPublic else TypePublic);
    }
  }

  /** The method loop, then (when compiler-generated definitions are left alone) the
      accessor pass. */
  method PublicizeTypeMethods(t: TypeDef, maskType: Option<TypeDef>, recordOriginal: bool, options: Options)
    requires OwnsMembers(t)
    modifies t.methods
    ensures forall k :: 0 <= k < |t.methods|
              ==> t.methods[k].State()
                  == MethodPasses(old(t.methods[k].State()), t.methods[k].isCompilerGenerated, options,
                                  recordOriginal, MaskAdmits(MaskMethods(maskType), t.methods[k].fullName),
                                  !options.publicizeCompilerGenerated && IsAccessor(t.properties, t.methods[k]))
  {
    PublicizeMethods(t, maskType, recordOriginal, options);
    if !options.publicizeCompilerGenerated {
      PublicizeAccessors(t, recordOriginal, options);
    }
  }

  /** Processing one type: strip, stop at a compiler-generated type the options leave
      alone, make the type itself public, then the method loop and accessor pass, and
      the field loop. */
  method PublicizeType(t: TypeDef, maskType: Option<TypeDef>, recordOriginal: bool, options: Options)
    requires OwnsMembers(t)
    modifies t, t.methods, t.fields
    ensures t.State() == TypeOutcome(t, old(t.State()), options, recordOriginal)
    ensures forall k :: 0 <= k < |t.methods|
              ==> t.methods[k].State()
                  == MethodOutcome(t, t.methods[k], old(t.methods[k].State()), maskType, options, recordOriginal)
    ensures forall k :: 0 <= k < |t.fields|
              ==> t.fields[k].State()
                  == FieldOutcome(t, t.fields[k], old(t.fields[k].State()), maskType, options, recordOriginal)
  {
    if options.strip && !t.isEnum && !t.isInterface {
      StripBodies(t);
    }
    if !options.publicizeCompilerGenerated && t.isCompilerGenerated {
      return;
    }
    if Types in options.targets {
      PublicizeTypeVisibility(t, recordOriginal);
    }
    if Methods in options.targets {
      PublicizeTypeMethods(t, maskType, recordOriginal, options);
    }
    if Fields in options.targets {
      PublicizeFields(t, maskType, recordOriginal, options);
    }
  }

  /** The mutable state of a type and of the methods and fields it owns, as values. */
  datatype TypeSnapshot = TypeSnapshot(
    typeState: TypeState,
    methodStates: seq<MethodState>,
    fieldStates: seq<FieldState>)

  ghost function Snapshot(t: TypeDef): (snapshot: TypeSnapshot)
    reads t, t.methods, t.fields
  {
    TypeSnapshot(
      t.State(),
      seq(|t.methods|, k requires 0 <= k < |t.methods| reads t.methods => t.methods[k].State()),
      seq(|t.fields|, k requires 0 <= k < |t.fields| reads t.fields => t.fields[k].State()))
  }

  /** A type's snapshot depends only on the type and the definitions it owns. */
  twostate lemma SnapshotFramed(t: TypeDef)
    requires unchanged(t)
    requires forall m :: m in t.methods ==> unchanged(m)
    requires forall f :: f in t.fields ==> unchanged(f)
    ensures Snapshot(t) == old(Snapshot(t))
  {
    assert forall k :: 0 <= k < |t.methods| ==> t.methods[k] in t.methods;
    assert forall k :: 0 <= k < |t.fields| ==> t.fields[k] in t.fields;
  }

  /** `after` is what one step of the module walk makes of `t`'s states `before`. */
  predicate WalkStep(t: TypeDef, before: TypeSnapshot, after: TypeSnapshot, attributeType: TypeDef?,
                     maskTypes: Option<map<string, TypeDef>>, opts: Options)
  {
    && |before.methodStates| == |t.methods| == |after.methodStates|
    && |before.fieldStates| == |t.fields| == |after.fieldStates|
    && after.typeState == TypeResult(t, before.typeState, attributeType, maskTypes, opts)
    && (forall k :: 0 <= k < |t.methods|
          ==> after.methodStates[k]
              == MethodResult(t, t.methods[k], before.methodStates[k], attributeType, maskTypes, opts))
    && (forall k :: 0 <= k < |t.fields|
          ==> after.fieldStates[k]
              == FieldResult(t, t.fields[k], before.fieldStates[k], attributeType, maskTypes, opts))
  }

  /** Running the walk a second time changes nothing: any type other than the two
      runs' own attribute types, and everything it owns, comes out of the second step
      as it came out of the first (each run records original access or neither does). */
  lemma WalkStepIdempotent(t: TypeDef, first: TypeSnapshot, once: TypeSnapshot, twice: TypeSnapshot,
                           firstAttributeType: TypeDef?, secondAttributeType: TypeDef?,
                           maskTypes: Option<map<string, TypeDef>>, opts: Options)
    requires t != firstAttributeType && t != secondAttributeType
    requires (firstAttributeType != null) == (secondAttributeType != null)
    requires WalkStep(t, first, once, firstAttributeType, maskTypes, opts)
    requires WalkStep(t, once, twice, secondAttributeType, maskTypes, opts)
    ensures twice == once
  {
    var rec := firstAttributeType != null;
    if Visited(t, firstAttributeType, maskTypes) {
      var maskType := MaskTypeOf(t, maskTypes);
      Properties.TypeOutcomeIdempotent(t, first.typeState, opts, rec);
      forall k | 0 <= k < |t.methods|
        ensures twice.methodStates[k] == once.methodStates[k]
      {
        Properties.MethodOutcomeIdempotent(t, t.methods[k], first.methodStates[k], maskType, opts, rec);
      }
      forall k | 0 <= k < |t.fields|
        ensures twice.fieldStates[k] == once.fieldStates[k]
      {
        Properties.FieldOutcomeIdempotent(t, t.fields[k], first.fieldStates[k], maskType, opts, rec);
      }
    }
  }

  /** One step of the walk over a module's types: the marker attribute type, and a
      type the mask module has no counterpart for, are left alone; any other type is
      rewritten against its mask type. No other type of the module, and nothing it
      owns, changes. */
  method VisitType(types: seq<TypeDef>, i: nat, attributeType: TypeDef?,
                   maskTypes: Option<map<string, TypeDef>>, opts: Options)
    requires i < |types| && OwnsDefinitions(types)
    modifies types[i], types[i].methods, types[i].fields
    ensures WalkStep(types[i], old(Snapshot(types[i])), Snapshot(types[i]), attributeType, maskTypes, opts)
    ensures forall j :: 0 <= j < |types| && j != i ==> Snapshot(types[j]) == old(Snapshot(types[j]))
  {
    var t := types[i];
    assert t in types;
    if attributeType != null && t == attributeType {
      return;
    }
    if maskTypes.Some? && t.fullName !in maskTypes.value {
      return;
    }
    assert Visited(t, attributeType, maskTypes);
    PublicizeType(t, MaskTypeOf(t, maskTypes), attributeType != null, opts);
    forall j | 0 <= j < |types| && j != i
      ensures Snapshot(types[j]) == old(Snapshot(types[j]))
    {
      assert forall m :: m in types[j].methods ==> m !in t.methods;
      assert forall f :: f in types[j].fields ==> f !in t.fields;
      SnapshotFramed(types[j]);
    }
  }

  /** The in-memory rewrite. `attributeType` is the attribute type that records
      original access, which the rewrite inserts into the module before its walk when
      the options ask for markers; the walk skips it. With a mask, a type the mask
      module has no type of the same full name for is skipped, and each visited type's
      methods and fields are filtered by that mask type's member names. */
  method Publicize(assembly: AssemblyDef, maskAssembly: Option<AssemblyDef>, options: Option<Options>,
                   attributeType: TypeDef?)
    returns (result: AssemblyDef)
    requires assembly.manifestModule.Some?
    requires OwnsDefinitions(TypesOf(assembly))
    requires MaskModuleTypes(maskAssembly).Some? ==> UniqueFullNames(MaskModuleTypes(maskAssembly).value)
    requires (attributeType != null)
             == (if options.Some? then options.value else DefaultOptions).includeOriginalAttributesAttribute
    requires attributeType != null ==> attributeType in TypesOf(assembly)
    modifies Footprint(TypesOf(assembly))
    ensures result == assembly
    ensures var opts := if options.Some? then options.value else DefaultOptions;
            var maskModule := MaskModuleTypes(maskAssembly);
            var maskTypes := if maskModule.Some? then Some(ToDictionary(maskModule.value)) else None;
            forall i :: 0 <= i < |TypesOf(assembly)|
              ==> WalkStep(TypesOf(assembly)[i], old(Snapshot(TypesOf(assembly)[i])), Snapshot(TypesOf(assembly)[i]),
                           attributeType, maskTypes, opts)
  {
    var opts := if options.Some? then options.value else DefaultOptions;
    var types := assembly.manifestModule.value.types;
    var maskModule := MaskModuleTypes(maskAssembly);
    var maskTypes := if maskModule.Some? then Some(ToDictionary(maskModule.value)) else None;
    ghost var before := seq(|types|, j requires 0 <= j < |types| reads Footprint(types) => Snapshot(types[j]));

    for i := 0 to |types|
      invariant forall j :: 0 <= j < |types| ==> before[j] == old(Snapshot(types[j]))
      invariant forall j :: 0 <= j < i ==> WalkStep(types[j], before[j], Snapshot(types[j]), attributeType, maskTypes, opts)
      invariant forall j :: i <= j < |types| ==> Snapshot(types[j]) == before[j]
    {
      VisitType(types, i, attributeType, maskTypes, opts);
    }
    result := assembly;
  }
}
