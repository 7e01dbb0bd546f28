# BepInEx.AssemblyPublicizer — the visibility rewriter, modelled in Dafny

The assembly publicizer takes a loaded .NET assembly and makes its definitions
accessible. Every type that is not public becomes public, or nested-public when it
is nested. Every method that is neither public nor compiler-controlled becomes
public, and so does every field that is neither public nor private-scope, unless
the field backs an event. The options control the details:

- which targets (types, methods, fields) are rewritten;
- whether compiler-generated definitions are rewritten too (property accessors
  are rewritten either way, provided methods are a target and the declaring type
  is not itself a compiler-generated type that is left alone);
- whether each rewritten definition gets an attribute that records its original
  access bits;
- whether every method body of a class or struct is stripped to `ldnull; throw`
  and marked NoInlining.

A mask assembly, when given, limits the walk. Types are matched by full name, and
methods and fields by the member full names of the matching mask type.

The model is in four modules:

- `Metadata`:
  - the access bit-fields of ECMA-335 Partition II: TypeAttributes (section
    23.1.15, 32 bits), MethodAttributes (section 23.1.10, 16 bits) and
    FieldAttributes (section 23.1.5, 16 bits);
  - the `ldnull` and `throw` opcodes of Partition III;
  - the type, method and field definitions as classes. What the rewriter only
    reads is a `const`. What it edits in place is a `var`: the flags word, the
    custom-attribute list, the body and the NoInlining bit.
- `Rules`: what the rewriter does, as functions on value snapshots of that mutable
  state. It covers the method rule, the field rule, the type-visibility rule,
  stripping, the outcome of processing one type, and the outcome of the module walk.
- `Properties`: lemmas about those functions.
- `AssemblyPublicizer`: the rewriter itself, as imperative methods with loops over
  the definitions and `modifies` clauses. Each method's postcondition ties every
  object's new state to the `Rules` outcome of its old state.

## Model

| member | source | states |
|---|---|---|
| Metadata.WithSubMask32 | BepInEx.AssemblyPublicizer/AssemblyPublicizer.cs:76-77 | clearing a sub-mask and or-ing in a value inside it leaves that value in the sub-mask and keeps every bit outside it |
| Metadata.WithSubMask16 | BepInEx.AssemblyPublicizer/AssemblyPublicizer.cs:147-148 | the same for a 16-bit MethodAttributes or FieldAttributes word |
| Rules.PublicizeMethodState | BepInEx.AssemblyPublicizer/AssemblyPublicizer.cs:134-150 | the access sub-mask becomes Public exactly when the method is neither compiler-controlled nor public and is not a skipped compiler-generated method (the check can be waived); other flag bits, body and NoInlining are kept; the marker with the old access is appended exactly when the method is rewritten and markers are on; otherwise nothing changes |
| Rules.StripMethodState | BepInEx.AssemblyPublicizer/AssemblyPublicizer.cs:58-64 | a method with a body gets the body `ldnull; throw` and NoInlining; a method without one is unchanged; flags and attributes are kept |
| Rules.PublicizeFieldState | BepInEx.AssemblyPublicizer/AssemblyPublicizer.cs:110-128 | the access sub-mask becomes Public exactly when the field is not private-scope, the mask (if any) lists it, it is not public, no event has its name, and it is not a skipped compiler-generated field; other bits are kept; the marker is appended exactly when rewritten and markers are on |
| Rules.PublicizeTypeState | BepInEx.AssemblyPublicizer/AssemblyPublicizer.cs:71-77 | a top-level type that is not Public becomes Public, and a nested type that is not NestedPublic becomes NestedPublic; the other bits are kept; the marker with the old visibility is appended exactly then |
| Rules.FullNames | BepInEx.AssemblyPublicizer/AssemblyPublicizer.cs:82 | the mask's name list has one entry per mask member, in order, each that member's full name (used for methods here and for fields at line 105) |
| Rules.ToDictionary | BepInEx.AssemblyPublicizer/AssemblyPublicizer.cs:37 | every mask type is found under its full name, and every key maps to a mask type with that full name |
| Properties.RewrittenMethodIsFixed | BepInEx.AssemblyPublicizer/AssemblyPublicizer.cs:139-149 | once the method rule has rewritten a method, running it again with or without the compiler-generated waiver changes nothing (no second marker) |
| Properties.PublicizeMethodStateIdempotent | BepInEx.AssemblyPublicizer/AssemblyPublicizer.cs:134-150 | the method rule applied twice gives what it gives once |
| Properties.AccessorPassOnce | BepInEx.AssemblyPublicizer/AssemblyPublicizer.cs:93-100 | however many properties name a method as their get or set accessor, the accessor pass acts on it as one run of the waived method rule when it is an accessor, and leaves it alone otherwise |
| Properties.MethodPassesOnce | BepInEx.AssemblyPublicizer/AssemblyPublicizer.cs:84-100 | the method loop followed by the accessor pass equals one waived run of the method rule when either pass rewrites the method, and no change otherwise |
| Properties.MethodOutcomeOnce | BepInEx.AssemblyPublicizer/AssemblyPublicizer.cs:54-101 | processing a type does to each method what stripping and then at most one waived rule run do |
| Properties.MethodOutcomeAccess | BepInEx.AssemblyPublicizer/AssemblyPublicizer.cs:80-101 | after a type is processed, a method's access is Public exactly when it was publicized, and otherwise as before; bits outside the access mask are kept; one marker carrying the old access is appended exactly when it was publicized with markers on |
| Properties.CompilerControlledOrPublicMethodKept | BepInEx.AssemblyPublicizer/AssemblyPublicizer.cs:136-139 | a compiler-controlled or public method keeps its flags and its attributes |
| Properties.AccessorPublicizedDespiteFilters | BepInEx.AssemblyPublicizer/AssemblyPublicizer.cs:92-99 | when compiler-generated definitions are left alone, in a type that is not itself compiler-generated and with Methods a target, an accessor that is not compiler-controlled ends up Public even if it is compiler-generated or the mask omits it |
| Properties.MethodOutcomeStrip | BepInEx.AssemblyPublicizer/AssemblyPublicizer.cs:54-66 | with strip on, in a type that is neither an enum nor an interface, every method with a body gets `ldnull; throw` and NoInlining; other bodies and NoInlining bits stay |
| Properties.FieldOutcomeAccess | BepInEx.AssemblyPublicizer/AssemblyPublicizer.cs:103-131 | after a type is processed, a field's access is Public exactly when it was publicized; other bits are kept; the marker is appended exactly when it was publicized with markers on |
| Properties.UnaddressableFieldKept | BepInEx.AssemblyPublicizer/AssemblyPublicizer.cs:110-119 | a private-scope field, a public field and an event backing field are left entirely unchanged |
| Properties.TypeOutcomeVisibility | BepInEx.AssemblyPublicizer/AssemblyPublicizer.cs:68-78 | a processed type's visibility becomes Public or NestedPublic exactly when it was not already, Types is a target and the type is not a skipped compiler-generated type; other bits are kept; the marker is appended exactly then |
| Properties.CompilerGeneratedTypeOnlyStripped | BepInEx.AssemblyPublicizer/AssemblyPublicizer.cs:54-69 | a compiler-generated type (when those are left alone) keeps its flags and its fields, and its methods are only stripped |
| Properties.UnvisitedTypeUntouched | BepInEx.AssemblyPublicizer/AssemblyPublicizer.cs:41-44 | the marker attribute type, and a type the mask has no counterpart for, are left unchanged together with their methods and fields |
| Properties.MethodOutcomeIdempotent | BepInEx.AssemblyPublicizer/AssemblyPublicizer.cs:54-101 | processing a type twice does to each method what processing it once does |
| Properties.FieldOutcomeIdempotent | BepInEx.AssemblyPublicizer/AssemblyPublicizer.cs:103-131 | processing a type twice does to each field what processing it once does |
| Properties.TypeOutcomeIdempotent | BepInEx.AssemblyPublicizer/AssemblyPublicizer.cs:68-78 | processing a type twice leaves its flags and attributes as once |
| Properties.RewriteIdempotent | BepInEx.AssemblyPublicizer/AssemblyPublicizer.cs:39-47 | a second walk (with its own marker type, markers on or off in both) leaves every type other than either walk's marker type, and what it owns, as the first walk left it |
| Properties.InternalClassScenario | BepInEx.AssemblyPublicizer/AssemblyPublicizer.cs:71-128 | with default options an internal class with a private method and a private field becomes public, and so do both members, each with one marker carrying its old access |
| AssemblyPublicizer.PublicizeMethod | BepInEx.AssemblyPublicizer/AssemblyPublicizer.cs:134-150 | the method's new state is the method rule applied to its old state |
| AssemblyPublicizer.StripBodies | BepInEx.AssemblyPublicizer/AssemblyPublicizer.cs:56-65 | each method of the type has the stripped form of its old state |
| AssemblyPublicizer.PublicizeMethods | BepInEx.AssemblyPublicizer/AssemblyPublicizer.cs:82-90 | each method the mask admits has had the method rule applied; every other method is unchanged |
| AssemblyPublicizer.PublicizeAccessors | BepInEx.AssemblyPublicizer/AssemblyPublicizer.cs:93-100 | each accessor of a property of the type has had the waived method rule applied once; every other method is unchanged |
| AssemblyPublicizer.PublicizeFields | BepInEx.AssemblyPublicizer/AssemblyPublicizer.cs:103-131 | each field has the field rule applied, with the type's event names and the mask's field names |
| AssemblyPublicizer.PublicizeTypeVisibility | BepInEx.AssemblyPublicizer/AssemblyPublicizer.cs:71-78 | the type's new state is the type-visibility rule applied to its old state |
| AssemblyPublicizer.PublicizeTypeMethods | BepInEx.AssemblyPublicizer/AssemblyPublicizer.cs:80-101 | each method's new state is the method loop then the accessor pass (the latter only when compiler-generated definitions are left alone) on its old state |
| AssemblyPublicizer.PublicizeType | BepInEx.AssemblyPublicizer/AssemblyPublicizer.cs:52-132 | the type, each of its methods and each of its fields has the per-type outcome of its old state |
| AssemblyPublicizer.VisitType | BepInEx.AssemblyPublicizer/AssemblyPublicizer.cs:41-46 | one walk step: the type and what it owns take the walk outcome; every other type of the module, and what it owns, is unchanged |
| AssemblyPublicizer.WalkStepIdempotent | BepInEx.AssemblyPublicizer/AssemblyPublicizer.cs:39-47 | a second walk step on a type that is neither run's marker type reproduces the first step's result, for the type and everything it owns |
| AssemblyPublicizer.Publicize | BepInEx.AssemblyPublicizer/AssemblyPublicizer.cs:28-50 | the same assembly is returned, and every type of its module, with its methods and fields, holds the walk outcome of its state before the call, with absent options read as the defaults and the mask module's types keyed by full name |

## Left out

- The file-path overload (lines 17-26) is not part of this model. It covers loading from disk, installing a no-op assembly resolver and writing the output. It is I/O.
- Reading and writing the PE/metadata format through AsmResolver is not modelled. The definitions are given as objects.
- The original-access attribute type itself is not modelled: its construction, its insertion into the module and how it encodes a value as a custom-attribute blob. `Publicize` receives the inserted type as `attributeType`, and a marker is a `CustomAttribute` value carrying the old access bits.
- Properties.RewriteIdempotent: covers only types other than either run's marker type. A second run does not skip the first run's marker type: it visits it like any other type and may make it public. Whether that changes the marker type depends on how the attribute type is built, which is not modelled.
- Publicize: requires the assembly to have a manifest module. The source dereferences it unconditionally, so a missing one is a crash, not a handled case.
- Publicize: requires the marker type, when present, to be one of the module's types. This is what the attribute constructor guarantees. The model does not show it.
- Rules.ToDictionary: requires the mask module's full names to be unique. The source throws on a duplicate key; that exception is not modelled.
- The default option values are the documented defaults: all targets, compiler-generated definitions left alone, markers on, no stripping. The options class is not part of this model.
- The target flags enumeration is modelled as a set of targets, and `HasTarget` as membership.
- Compiler-generated status (an attribute lookup), full names (name formatting), nesting (the declaring type) and enum-ness (the base type) are not part of this model; they are given as constant fields. Interface-ness is the Interface bit (0x20, ClassSemanticsMask) of the TypeAttributes word. The model also keeps it as a constant, which is sound because the rewrite changes only the visibility bits (0x7) of that word.
- The enumeration order of a module's types, which includes nested types, is taken as a sequence. The walk neither creates nor removes types.
- Property accessors are required to be methods of the declaring type, which .NET metadata guarantees. An accessor owned by another type would be edited outside that type's frame.
- A null member name is not modelled: names are plain strings.
- CIL operands, exception handlers, local variables and the rest of a method body are not modelled. A body is the sequence of its opcodes.
- Concurrency: the source is single-threaded. Aliasing between the edited definitions is ruled out by the ownership requirements, which match what the metadata model guarantees.
