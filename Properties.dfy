/** What the rewrite promises about each definition it visits: which access
    sub-masks change and to what, that no other bit changes, that one marker
    records each change, what strip does, what the compiler-generated and mask
    filters leave alone, and that a second run changes nothing more. */
module Properties {
  import opened Metadata
  import opened Rules

  // ---------------------------------------------------------------------------
  // The method rule and the accessor pass

  /** Once the method rule has rewritten a method it is public, so any later run of
      the rule on it, with or without the compiler-generated check, does nothing. */
  lemma RewrittenMethodIsFixed(s: MethodState, isCompilerGenerated: bool, options: Options,
                               recordOriginal: bool, ignoreFirst: bool, ignoreSecond: bool)
    requires RewritesMethod(s, isCompilerGenerated, options, ignoreFirst)
    ensures var once := PublicizeMethodState(s, isCompilerGenerated, options, recordOriginal, ignoreFirst);
            PublicizeMethodState(once, isCompilerGenerated, options, recordOriginal, ignoreSecond) == once
  {
    var once := PublicizeMethodState(s, isCompilerGenerated, options, recordOriginal, ignoreFirst);
    assert MethodAccess(once.attributes) == MethodPublic;
  }

  /** The method rule is idempotent. */
  lemma PublicizeMethodStateIdempotent(s: MethodState, isCompilerGenerated: bool, options: Options,
                                       recordOriginal: bool, ignore: bool)
    ensures var once := PublicizeMethodState(s, isCompilerGenerated, options, recordOriginal, ignore);
            PublicizeMethodState(once, isCompilerGenerated, options, recordOriginal, ignore) == once
  {
    if RewritesMethod(s, isCompilerGenerated, options, ignore) {
      RewrittenMethodIsFixed(s, isCompilerGenerated, options, recordOriginal, ignore, ignore);
    }
  }

  /** However many properties name a method as their get or set accessor, the
      accessor pass affects it as one run of the method rule (with the
      compiler-generated check waived) would: a method reached twice is
      rewritten, and marked, once. */
  lemma {:induction false} AccessorPassOnce(properties: seq<PropertyDef>, m: MethodDef, s: MethodState,
                                            options: Options, recordOriginal: bool)
    ensures AccessorPass(properties, m, s, options, recordOriginal)
            == if IsAccessor(properties, m)
               then PublicizeMethodState(s, m.isCompilerGenerated, options, recordOriginal, true)
               else s
    decreases |properties|
  {
    if properties != [] {
      var n := |properties| - 1;
      var init, p := properties[..n], properties[n];
      AccessorPassOnce(init, m, s, options, recordOriginal);
      var once := PublicizeMethodState(s, m.isCompilerGenerated, options, recordOriginal, true);
      PublicizeMethodStateIdempotent(s, m.isCompilerGenerated, options, recordOriginal, true);
      assert properties == init + [p];
      if IsAccessor(init, m) {
        var q :| q in init && (q.getMethod == Some(m) || q.setMethod == Some(m));
        assert q in properties;
      } else if p.getMethod == Some(m) || p.setMethod == Some(m) {
        assert p in properties;
      } else {
        forall q | q in properties ensures !(q.getMethod == Some(m) || q.setMethod == Some(m)) {
          if q != p {
            assert q in init;
          }
        }
      }
    }
  }

  // ---------------------------------------------------------------------------
  // Methods of a processed type

  /** Whether the two passes rewrite a method: it is neither compiler-controlled nor
      public, and either the loop reaches it and the compiler-generated check lets it
      through, or the accessor pass reaches it. */
  predicate PassesRewrite(s: MethodState, isCompilerGenerated: bool, options: Options,
                          loopReaches: bool, accessorReaches: bool)
  {
    MethodAccess(s.attributes) != CompilerControlled
    && MethodAccess(s.attributes) != MethodPublic
    && ((loopReaches && (options.publicizeCompilerGenerated || !isCompilerGenerated)) || accessorReaches)
  }

  /** When the two passes rewrite a method its access becomes Public and one marker
      records the old access, even when both passes reach it; otherwise the method
      is left as it was. No other bit changes, and the body is not touched. */
  lemma MethodPassesOnce(s: MethodState, isCompilerGenerated: bool, options: Options,
                         recordOriginal: bool, loopReaches: bool, accessorReaches: bool)
    ensures MethodPasses(s, isCompilerGenerated, options, recordOriginal, loopReaches, accessorReaches)
            == if PassesRewrite(s, isCompilerGenerated, options, loopReaches, accessorReaches)
               then PublicizeMethodState(s, isCompilerGenerated, options, recordOriginal, true)
               else s
  {
    if loopReaches && RewritesMethod(s, isCompilerGenerated, options, false) {
      RewrittenMethodIsFixed(s, isCompilerGenerated, options, recordOriginal, false, true);
    }
  }

  /** When processing a type makes a method public: the type gets past the
      compiler-generated check, methods are a target, the method is neither
      compiler-controlled nor public, and either the method loop reaches it (the
      mask lists it, and it is not a compiler-generated method the options leave
      alone) or it is a property accessor (which neither the mask nor the
      compiler-generated check holds back). */
  predicate MethodPublicized(t: TypeDef, m: MethodDef, s: MethodState, maskType: Option<TypeDef>,
                             options: Options)
  {
    ProcessesAccess(t, options) && Methods in options.targets
    && PassesRewrite(s, m.isCompilerGenerated, options, MaskAdmits(MaskMethods(maskType), m.fullName),
                     !options.publicizeCompilerGenerated && IsAccessor(t.properties, m))
  }

  /** Processing a type runs the method rule on a method, in effect, at most once:
      exactly when the method is publicized, and then as the rule runs with the
      compiler-generated check waived. Strip comes first either way. */
  lemma MethodOutcomeOnce(t: TypeDef, m: MethodDef, s: MethodState, maskType: Option<TypeDef>,
                          options: Options, recordOriginal: bool)
    ensures var stripped := if StripsBodies(t, options) then StripMethodState(s) else s;
            MethodOutcome(t, m, s, maskType, options, recordOriginal)
            == if MethodPublicized(t, m, s, maskType, options)
               then PublicizeMethodState(stripped, m.isCompilerGenerated, options, recordOriginal, true)
               else stripped
  {
    var stripped := if StripsBodies(t, options) then StripMethodState(s) else s;
    MethodPassesOnce(stripped, m.isCompilerGenerated, options, recordOriginal,
                     MaskAdmits(MaskMethods(maskType), m.fullName),
                     !options.publicizeCompilerGenerated && IsAccessor(t.properties, m));
  }

  /** The access sub-mask of a method becomes Public exactly when it is publicized
      and is kept otherwise; no other bit of its flags changes; it gains one marker
      with its old access exactly when it is publicized and markers are on, and
      keeps its existing attributes in order. */
  lemma MethodOutcomeAccess(t: TypeDef, m: MethodDef, s: MethodState, maskType: Option<TypeDef>,
                            options: Options, recordOriginal: bool)
    ensures MethodOutcome(t, m, s, maskType, options, recordOriginal).attributes & !MemberAccessMask
            == s.attributes & !MemberAccessMask
    ensures MethodAccess(MethodOutcome(t, m, s, maskType, options, recordOriginal).attributes)
            == if MethodPublicized(t, m, s, maskType, options) then MethodPublic else MethodAccess(s.attributes)
    ensures MethodOutcome(t, m, s, maskType, options, recordOriginal).customAttributes
            == s.customAttributes
               + Marker(recordOriginal && MethodPublicized(t, m, s, maskType, options),
                        OriginalMethodAttributes(MethodAccess(s.attributes)))
  {
    MethodOutcomeOnce(t, m, s, maskType, options, recordOriginal);
  }

  /** A compiler-controlled or already public method keeps its flags and its
      attribute list, whatever the options, the mask or its properties. */
  lemma CompilerControlledOrPublicMethodKept(t: TypeDef, m: MethodDef, s: MethodState,
                                             maskType: Option<TypeDef>, options: Options,
                                             recordOriginal: bool)
    requires MethodAccess(s.attributes) == CompilerControlled || MethodAccess(s.attributes) == MethodPublic
    ensures var r := MethodOutcome(t, m, s, maskType, options, recordOriginal);
            r.attributes == s.attributes && r.customAttributes == s.customAttributes
  {
    MethodOutcomeAccess(t, m, s, maskType, options, recordOriginal);
    var r := MethodOutcome(t, m, s, maskType, options, recordOriginal);
    assert r.attributes & !MemberAccessMask == s.attributes & !MemberAccessMask;
    assert r.attributes & MemberAccessMask == s.attributes & MemberAccessMask;
  }

  /** With compiler-generated definitions left alone, a property accessor that is
      neither compiler-controlled nor public is still made public, even when it is
      compiler-generated and even when the mask type does not list it. */
  lemma AccessorPublicizedDespiteFilters(t: TypeDef, m: MethodDef, s: MethodState,
                                         maskType: Option<TypeDef>, options: Options,
                                         recordOriginal: bool)
    requires ProcessesAccess(t, options) && Methods in options.targets
    requires !options.publicizeCompilerGenerated && IsAccessor(t.properties, m)
    requires MethodAccess(s.attributes) != CompilerControlled
    ensures MethodAccess(MethodOutcome(t, m, s, maskType, options, recordOriginal).attributes) == MethodPublic
  {
    MethodOutcomeAccess(t, m, s, maskType, options, recordOriginal);
  }

  /** Strip replaces the body of every method that has one, in a type that is
      neither an enum nor an interface, by `ldnull; throw` and sets NoInlining,
      whatever happens to its access; every other body is kept. */
  lemma MethodOutcomeStrip(t: TypeDef, m: MethodDef, s: MethodState, maskType: Option<TypeDef>,
                           options: Options, recordOriginal: bool)
    ensures var r := MethodOutcome(t, m, s, maskType, options, recordOriginal);
            && r.body == (if StripsBodies(t, options) && s.body.Some? then Some(ThrowNullBody) else s.body)
            && r.noInlining == (s.noInlining || (StripsBodies(t, options) && s.body.Some?))
  {
  }

  // ---------------------------------------------------------------------------
  // Fields of a processed type

  /** When processing a type makes a field public. */
  predicate FieldPublicized(t: TypeDef, f: FieldDef, s: FieldState, maskType: Option<TypeDef>,
                            options: Options)
  {
    ProcessesAccess(t, options) && Fields in options.targets
    && RewritesField(s, f, EventNames(t), MaskFields(maskType), options)
  }

  /** The access sub-mask of a field becomes Public exactly when it is publicized
      and is kept otherwise, no other bit changes, and one marker records the old
      access exactly when it changes and markers are on. */
  lemma FieldOutcomeAccess(t: TypeDef, f: FieldDef, s: FieldState, maskType: Option<TypeDef>,
                           options: Options, recordOriginal: bool)
    ensures FieldOutcome(t, f, s, maskType, options, recordOriginal).attributes & !FieldAccessMask
            == s.attributes & !FieldAccessMask
    ensures FieldAccess(FieldOutcome(t, f, s, maskType, options, recordOriginal).attributes)
            == if FieldPublicized(t, f, s, maskType, options) then FieldPublic else FieldAccess(s.attributes)
    ensures FieldOutcome(t, f, s, maskType, options, recordOriginal).customAttributes
            == s.customAttributes
               + Marker(recordOriginal && FieldPublicized(t, f, s, maskType, options),
                        OriginalFieldAttributes(FieldAccess(s.attributes)))
  {
    if !FieldPublicized(t, f, s, maskType, options) {
      assert FieldOutcome(t, f, s, maskType, options, recordOriginal) == s;
    }
  }

  /** A private-scope field, an already public field and a field that has the name
      of one of its type's events are never modified. */
  lemma UnaddressableFieldKept(t: TypeDef, f: FieldDef, s: FieldState, maskType: Option<TypeDef>,
                               options: Options, recordOriginal: bool)
    requires FieldAccess(s.attributes) == PrivateScope || FieldAccess(s.attributes) == FieldPublic
             || exists e :: e in t.events && e.name == f.name
    ensures FieldOutcome(t, f, s, maskType, options, recordOriginal) == s
  {
    if exists e :: e in t.events && e.name == f.name {
      var e :| e in t.events && e.name == f.name;
      assert f.name in EventNames(t);
    }
  }

  // ---------------------------------------------------------------------------
  // The type itself

  /** A type's visibility becomes Public (top level) or NestedPublic (nested) when it
      was not already that, if the type gets past the compiler-generated check and
      types are a target; no other bit changes; one marker records the old
      visibility exactly when it changes and markers are on. */
  lemma TypeOutcomeVisibility(t: TypeDef, s: TypeState, options: Options, recordOriginal: bool)
    ensures var r := TypeOutcome(t, s, options, recordOriginal);
            var publicized := ProcessesAccess(t, options) && Types in options.targets
                              && TypeVisibility(s.attributes) != PublicVisibility(t.isNested);
            && r.attributes & !VisibilityMask == s.attributes & !VisibilityMask
            && TypeVisibility(r.attributes)
               == (if publicized then PublicVisibility(t.isNested) else TypeVisibility(s.attributes))
            && r.customAttributes
               == s.customAttributes
                  + Marker(recordOriginal && publicized, OriginalTypeAttributes(TypeVisibility(s.attributes)))
  {
  }

  /** With compiler-generated definitions left alone, a compiler-generated type and
      its fields keep everything, and its methods get only what strip gives them. */
  lemma CompilerGeneratedTypeOnlyStripped(t: TypeDef, m: MethodDef, sm: MethodState, f: FieldDef,
                                          sf: FieldState, st: TypeState, maskType: Option<TypeDef>,
                                          options: Options, recordOriginal: bool)
    requires !options.publicizeCompilerGenerated && t.isCompilerGenerated
    ensures TypeOutcome(t, st, options, recordOriginal) == st
    ensures MethodOutcome(t, m, sm, maskType, options, recordOriginal)
            == if StripsBodies(t, options) then StripMethodState(sm) else sm
    ensures FieldOutcome(t, f, sf, maskType, options, recordOriginal) == sf
  {
  }

  // ---------------------------------------------------------------------------
  // The module walk

  /** A type the mask does not list, and the synthesized attribute type, are left as
      they were, members included, strip included. */
  lemma UnvisitedTypeUntouched(t: TypeDef, st: TypeState, m: MethodDef, sm: MethodState,
                               f: FieldDef, sf: FieldState, attributeType: TypeDef?,
                               maskTypes: Option<map<string, TypeDef>>, options: Options)
    requires t == attributeType || (maskTypes.Some? && t.fullName !in maskTypes.value)
    ensures TypeResult(t, st, attributeType, maskTypes, options) == st
    ensures MethodResult(t, m, sm, attributeType, maskTypes, options) == sm
    ensures FieldResult(t, f, sf, attributeType, maskTypes, options) == sf
  {
  }

  /** Processing a type a second time leaves each of its methods as the first time
      left it: a publicized method is public now, the others kept their access, and
      a stripped body is already `ldnull; throw`. */
  lemma MethodOutcomeIdempotent(t: TypeDef, m: MethodDef, s: MethodState, maskType: Option<TypeDef>,
                                options: Options, recordOriginal: bool)
    ensures var once := MethodOutcome(t, m, s, maskType, options, recordOriginal);
            MethodOutcome(t, m, once, maskType, options, recordOriginal) == once
  {
    var once := MethodOutcome(t, m, s, maskType, options, recordOriginal);
    MethodOutcomeOnce(t, m, s, maskType, options, recordOriginal);
    MethodOutcomeOnce(t, m, once, maskType, options, recordOriginal);
    if MethodPublicized(t, m, s, maskType, options) {
      assert MethodAccess(once.attributes) == MethodPublic;
    } else {
      assert once.attributes == s.attributes;
    }
    assert !MethodPublicized(t, m, once, maskType, options);
  }

  /** Processing a type a second time leaves each of its fields as the first time
      left it. */
  lemma FieldOutcomeIdempotent(t: TypeDef, f: FieldDef, s: FieldState, maskType: Option<TypeDef>,
                               options: Options, recordOriginal: bool)
    ensures var once := FieldOutcome(t, f, s, maskType, options, recordOriginal);
            FieldOutcome(t, f, once, maskType, options, recordOriginal) == once
  {
    var once := FieldOutcome(t, f, s, maskType, options, recordOriginal);
    if FieldPublicized(t, f, s, maskType, options) {
      assert FieldAccess(once.attributes) == FieldPublic;
    } else {
      assert once == s;
    }
    assert !FieldPublicized(t, f, once, maskType, options);
  }

  /** Processing a type a second time leaves its own flags and attributes as the
      first time left them. */
  lemma TypeOutcomeIdempotent(t: TypeDef, s: TypeState, options: Options, recordOriginal: bool)
    ensures var once := TypeOutcome(t, s, options, recordOriginal);
            TypeOutcome(t, once, options, recordOriginal) == once
  {
    var once := TypeOutcome(t, s, options, recordOriginal);
    if ProcessesAccess(t, options) && Types in options.targets && RewritesTypeVisibility(s, t.isNested) {
      assert TypeVisibility(once.attributes) == PublicVisibility(t.isNested);
    } else {
      assert once == s;
    }
    assert !(ProcessesAccess(t, options) && Types in options.targets && RewritesTypeVisibility(once, t.isNested));
  }

  /** Running the rewrite again, with the same mask and options, changes nothing on
      a definition whose type is neither run's synthesized attribute type: every
      definition the first run changed is already at its fixed point. */
  lemma RewriteIdempotent(t: TypeDef, st: TypeState, m: MethodDef, sm: MethodState,
                          f: FieldDef, sf: FieldState,
                          firstAttributeType: TypeDef?, secondAttributeType: TypeDef?,
                          maskTypes: Option<map<string, TypeDef>>, options: Options)
    requires t != firstAttributeType && t != secondAttributeType
    requires (firstAttributeType != null) == (secondAttributeType != null)
    ensures var once := TypeResult(t, st, firstAttributeType, maskTypes, options);
            TypeResult(t, once, secondAttributeType, maskTypes, options) == once
    ensures var once := MethodResult(t, m, sm, firstAttributeType, maskTypes, options);
            MethodResult(t, m, once, secondAttributeType, maskTypes, options) == once
    ensures var once := FieldResult(t, f, sf, firstAttributeType, maskTypes, options);
            FieldResult(t, f, once, secondAttributeType, maskTypes, options) == once
  {
    var record := firstAttributeType != null;
    var maskType := MaskTypeOf(t, maskTypes);
    TypeOutcomeIdempotent(t, st, options, record);
    MethodOutcomeIdempotent(t, m, sm, maskType, options, record);
    FieldOutcomeIdempotent(t, f, sf, maskType, options, record);
  }

  /** With the default options, an internal top-level class with a private method
      and a private field ends up public, and so do both members, each carrying one
      marker with its former access (NotPublic for the class, Private for the
      members); the BeforeFieldInit and HideBySig bits stay. */
  lemma InternalClassScenario(t: TypeDef, m: MethodDef, f: FieldDef, body: seq<CilOpCode>)
    requires !t.isNested && !t.isEnum && !t.isInterface && !t.isCompilerGenerated
    requires !m.isCompilerGenerated && !f.isCompilerGenerated
    requires t.events == [] && t.properties == []
    ensures TypeOutcome(t, TypeState(0x0010_0000, []), DefaultOptions, true)
            == TypeState(0x0010_0001, [OriginalTypeAttributes(NotPublic)])
    ensures MethodOutcome(t, m, MethodState(0x0081, [], Some(body), false), None, DefaultOptions, true)
            == MethodState(0x0086, [OriginalMethodAttributes(0x1)], Some(body), false)
    ensures FieldOutcome(t, f, FieldState(0x0001, []), None, DefaultOptions, true)
            == FieldState(0x0006, [OriginalFieldAttributes(0x1)])
  {
  }
}
