/**
 * The attribute-flag words of the metadata tables (section II.23.1 of
 * ECMA-335) and the predicates the reflection nodes derive from them. Every
 * predicate is a mask test recomputed from the stored word.
 */
/** The single-bit test the attribute-flag modules share, and its facts. */
module FlagBits {
  /** `(attrs & flag) > 0`: some bit of the flag is set in the word. */
  predicate IsSet(attrs: bv32, flag: bv32) { attrs & flag != 0 }

  /** Setting a nonzero flag makes its test succeed; clearing it makes the test fail. */
  lemma {:induction false} SetClear(attrs: bv32, flag: bv32)
    requires flag != 0
    ensures IsSet(attrs | flag, flag)
    ensures !IsSet(attrs & !flag, flag)
  {
  }

  /** Setting bits outside a mask leaves the masked bits, and so the mask's test, as they were. */
  lemma {:induction false} SetOutside(attrs: bv32, bits: bv32, mask: bv32)
    requires bits & mask == 0
    ensures (attrs | bits) & mask == attrs & mask
    ensures IsSet(attrs | bits, mask) == IsSet(attrs, mask)
  {
  }
}

module TypeFlags {
  import opened FlagBits
  import opened Accessibility

  /** TypeAttributes (section II.23.1.15 of ECMA-335). */
  const VisibilityMask: bv32 := 0x7
  const NotPublic: bv32 := 0x0
  const PublicVisibility: bv32 := 0x1
  const NestedPublic: bv32 := 0x2
  const NestedPrivate: bv32 := 0x3
  const NestedFamily: bv32 := 0x4
  const NestedAssembly: bv32 := 0x5
  const NestedFamANDAssem: bv32 := 0x6
  const NestedFamORAssem: bv32 := 0x7
  const LayoutMask: bv32 := 0x18
  const SequentialLayout: bv32 := 0x8
  const ExplicitLayout: bv32 := 0x10
  const ClassSemanticsMask: bv32 := 0x20
  const InterfaceFlag: bv32 := 0x20
  const AbstractFlag: bv32 := 0x80
  const SealedFlag: bv32 := 0x100
  const SpecialNameFlag: bv32 := 0x400
  const ImportFlag: bv32 := 0x1000
  const StringFormatMask: bv32 := 0x30000
  const UnicodeClass: bv32 := 0x10000
  const AutoClass: bv32 := 0x20000

  function Visibility(attrs: bv32): bv32 { attrs & VisibilityMask }

  predicate IsPublic(attrs: bv32) { Visibility(attrs) == PublicVisibility }
  predicate IsNotPublic(attrs: bv32) { Visibility(attrs) == NotPublic }
  predicate IsNestedPublic(attrs: bv32) { Visibility(attrs) == NestedPublic }
  predicate IsNestedPrivate(attrs: bv32) { Visibility(attrs) == NestedPrivate }
  predicate IsNestedFamily(attrs: bv32) { Visibility(attrs) == NestedFamily }
  predicate IsNestedAssembly(attrs: bv32) { Visibility(attrs) == NestedAssembly }
  predicate IsNestedFamANDAssem(attrs: bv32) { Visibility(attrs) == NestedFamANDAssem }
  /** Compares against the whole mask, whose value is NestedFamORAssem. */
  predicate IsNestedFamORAssem(attrs: bv32) { Visibility(attrs) == VisibilityMask }

  predicate IsAbstract(attrs: bv32) { IsSet(attrs, AbstractFlag) }
  predicate IsImport(attrs: bv32) { IsSet(attrs, ImportFlag) }
  predicate IsSealed(attrs: bv32) { IsSet(attrs, SealedFlag) }
  predicate IsSpecialName(attrs: bv32) { IsSet(attrs, SpecialNameFlag) }
  predicate IsClass(attrs: bv32, isValueType: bool) { attrs & ClassSemanticsMask == NotPublic && !isValueType }
  predicate IsAutoLayout(attrs: bv32) { attrs & LayoutMask == NotPublic }
  predicate IsExplicitLayout(attrs: bv32) { attrs & LayoutMask == ExplicitLayout }
  predicate IsLayoutSequential(attrs: bv32) { attrs & LayoutMask == SequentialLayout }
  predicate IsAnsiClass(attrs: bv32) { attrs & StringFormatMask == NotPublic }
  predicate IsAutoClass(attrs: bv32) { attrs & StringFormatMask == AutoClass }
  predicate IsUnicodeClass(attrs: bv32) { attrs & StringFormatMask == UnicodeClass }

  /** The word with its visibility bits replaced by v. */
  function WithVisibility(attrs: bv32, v: bv32): bv32 { (attrs & !VisibilityMask) | (v & VisibilityMask) }

  /** Each visibility test holds exactly for its own value of the three visibility bits. */
  lemma {:induction false} VisibilityTests(attrs: bv32, v: bv32)
    requires v <= 7
    ensures IsPublic(WithVisibility(attrs, v)) <==> v == PublicVisibility
    ensures IsNotPublic(WithVisibility(attrs, v)) <==> v == NotPublic
    ensures IsNestedPublic(WithVisibility(attrs, v)) <==> v == NestedPublic
    ensures IsNestedPrivate(WithVisibility(attrs, v)) <==> v == NestedPrivate
    ensures IsNestedFamily(WithVisibility(attrs, v)) <==> v == NestedFamily
    ensures IsNestedAssembly(WithVisibility(attrs, v)) <==> v == NestedAssembly
    ensures IsNestedFamANDAssem(WithVisibility(attrs, v)) <==> v == NestedFamANDAssem
    ensures IsNestedFamORAssem(WithVisibility(attrs, v)) <==> v == NestedFamORAssem
    ensures WithVisibility(attrs, v) & !VisibilityMask == attrs & !VisibilityMask
  {
  }

  /**
   * Each single-bit test holds once its bit is set, and setting the four
   * bits leaves the visibility as it was.
   */
  lemma {:induction false} BitTests(attrs: bv32)
    ensures IsAbstract(attrs | AbstractFlag)
    ensures IsImport(attrs | ImportFlag)
    ensures IsSealed(attrs | SealedFlag)
    ensures IsSpecialName(attrs | SpecialNameFlag)
    ensures Visibility(attrs | (AbstractFlag | ImportFlag | SealedFlag | SpecialNameFlag)) == Visibility(attrs)
  {
    SetOutside(attrs, AbstractFlag | ImportFlag | SealedFlag | SpecialNameFlag, VisibilityMask);
    SetClear(attrs, AbstractFlag);
    SetClear(attrs, ImportFlag);
    SetClear(attrs, SealedFlag);
    SetClear(attrs, SpecialNameFlag);
  }

  /**
   * The layout and string-format tests read only their own two bits: with
   * those bits set to v, each test holds exactly for its own value.
   */
  lemma {:induction false} LayoutTests(attrs: bv32, v: bv32)
    requires v & !LayoutMask == 0
    ensures IsAutoLayout((attrs & !LayoutMask) | v) <==> v == NotPublic
    ensures IsLayoutSequential((attrs & !LayoutMask) | v) <==> v == SequentialLayout
    ensures IsExplicitLayout((attrs & !LayoutMask) | v) <==> v == ExplicitLayout
  {
  }

  /** The string-format counterpart of LayoutTests. */
  lemma {:induction false} StringFormatTests(attrs: bv32, v: bv32)
    requires v & !StringFormatMask == 0
    ensures IsAnsiClass((attrs & !StringFormatMask) | v) <==> v == NotPublic
    ensures IsAutoClass((attrs & !StringFormatMask) | v) <==> v == AutoClass
    ensures IsUnicodeClass((attrs & !StringFormatMask) | v) <==> v == UnicodeClass
  {
  }

  /** DocsTypeInfo.AccessibilityLevel: the first matching test of the chain. */
  function Level(attrs: bv32): (r: Level)
    ensures r != Unknown
    ensures r == Public <==> Visibility(attrs) == 1 || Visibility(attrs) == 2
    ensures r == Internal <==> Visibility(attrs) == 0 || Visibility(attrs) == 5
    ensures r == Private <==> Visibility(attrs) == 3
    ensures r == Protected <==> Visibility(attrs) == 4
    ensures r == PrivateProtected <==> Visibility(attrs) == 6
    ensures r == ProtectedInternal <==> Visibility(attrs) == 7
  {
    if IsPublic(attrs) || IsNestedPublic(attrs) then Public
    else if IsNotPublic(attrs) || IsNestedAssembly(attrs) then Internal
    else if IsNestedPrivate(attrs) then Private
    else if IsNestedFamily(attrs) then Protected
    else if IsNestedFamANDAssem(attrs) then PrivateProtected
    else if IsNestedFamORAssem(attrs) then ProtectedInternal
    else Unknown
  }

  /** Only the three visibility bits decide the level. */
  lemma {:induction false} LevelDependsOnVisibility(a: bv32, b: bv32)
    requires Visibility(a) == Visibility(b)
    ensures Level(a) == Level(b)
  {
  }

  /** Exactly one of the eight visibility tests holds for any word. */
  lemma {:induction false} ExactlyOneVisibility(attrs: bv32)
    ensures IsPublic(attrs) || IsNotPublic(attrs) || IsNestedPublic(attrs) || IsNestedPrivate(attrs)
      || IsNestedFamily(attrs) || IsNestedAssembly(attrs) || IsNestedFamANDAssem(attrs) || IsNestedFamORAssem(attrs)
    ensures IsPublic(attrs) ==> (!IsNotPublic(attrs) && !IsNestedPublic(attrs) && !IsNestedPrivate(attrs)
      && !IsNestedFamily(attrs) && !IsNestedAssembly(attrs) && !IsNestedFamANDAssem(attrs) && !IsNestedFamORAssem(attrs))
  {
  }

  /** Layout and string format each take exactly one of their three named values or the unnamed fourth. */
  lemma {:induction false} LayoutTestsExclusive(attrs: bv32)
    ensures !(IsAutoLayout(attrs) && IsExplicitLayout(attrs))
    ensures !(IsAutoLayout(attrs) && IsLayoutSequential(attrs))
    ensures !(IsExplicitLayout(attrs) && IsLayoutSequential(attrs))
    ensures !(IsAnsiClass(attrs) && IsAutoClass(attrs))
    ensures !(IsAnsiClass(attrs) && IsUnicodeClass(attrs))
    ensures !(IsAutoClass(attrs) && IsUnicodeClass(attrs))
  {
  }

  /** The kinds DocsTypeInfo.Kind can name. */
  datatype TypeKind = Class | Interface | Delegate | Enum | Struct

  /**
   * DocsTypeInfo.Kind: Interface when the interface bit is set, otherwise the
   * test of the zero-valued Class flag, which always succeeds.
   */
  function Kind(attrs: bv32, isDelegate: bool, isEnum: bool): (r: TypeKind)
    ensures r == Interface <==> attrs & InterfaceFlag != 0
    ensures r == Class <==> attrs & InterfaceFlag == 0
  {
    if HasFlag(attrs, InterfaceFlag) then Interface
    else if HasFlag(attrs, NotPublic) then Class
    else if isDelegate then Delegate
    else if isEnum then Enum
    else Struct
  }

  /** Enum.HasFlag: every bit of the flag is set. */
  predicate HasFlag(attrs: bv32, flag: bv32) { attrs & flag == flag }

  /** Delegate, Enum and Struct are never the kind, whatever the base type says. */
  lemma {:induction false} KindIsClassOrInterface(attrs: bv32, isDelegate: bool, isEnum: bool)
    ensures Kind(attrs, isDelegate, isEnum) !in {Delegate, Enum, Struct}
    ensures Kind(attrs, isDelegate, isEnum) == Kind(attrs, false, false)
  {
  }

  /** IsClass holds exactly for a reference type whose kind is Class. */
  lemma {:induction false} IsClassMeansClassKind(attrs: bv32, isValueType: bool, isDelegate: bool, isEnum: bool)
    ensures IsClass(attrs, isValueType) <==> Kind(attrs, isDelegate, isEnum) == Class && !isValueType
  {
  }
}


module MethodFlags {
  import opened FlagBits
  import opened Accessibility

  /** MethodAttributes (section II.23.1.10 of ECMA-335). */
  const MemberAccessMask: bv32 := 0x7
  const PrivateAccess: bv32 := 0x1
  const FamANDAssem: bv32 := 0x2
  const AssemblyAccess: bv32 := 0x3
  const Family: bv32 := 0x4
  const FamORAssem: bv32 := 0x5
  const PublicAccess: bv32 := 0x6
  const StaticFlag: bv32 := 0x10
  const FinalFlag: bv32 := 0x20
  const VirtualFlag: bv32 := 0x40
  const HideBySigFlag: bv32 := 0x80
  const AbstractFlag: bv32 := 0x400
  const SpecialNameFlag: bv32 := 0x800
  const RTSpecialNameFlag: bv32 := 0x1000

  function Access(attrs: bv32): bv32 { attrs & MemberAccessMask }

  predicate IsAbstract(attrs: bv32) { IsSet(attrs, AbstractFlag) }
  predicate IsFinal(attrs: bv32) { IsSet(attrs, FinalFlag) }
  predicate IsHideBySig(attrs: bv32) { IsSet(attrs, HideBySigFlag) }
  predicate IsSpecialName(attrs: bv32) { IsSet(attrs, SpecialNameFlag) }
  predicate IsStatic(attrs: bv32) { IsSet(attrs, StaticFlag) }
  predicate IsVirtual(attrs: bv32) { IsSet(attrs, VirtualFlag) }

  /** MethodBase.IsConstructor: only a constructor node, non-static, with RTSpecialName. */
  predicate IsConstructor(attrs: bv32, isConstructorNode: bool)
  {
    isConstructorNode && !IsStatic(attrs) && attrs & RTSpecialNameFlag == RTSpecialNameFlag
  }

  predicate IsAssembly(attrs: bv32) { Access(attrs) == AssemblyAccess }
  predicate IsFamily(attrs: bv32) { Access(attrs) == Family }
  predicate IsFamilyAndAssembly(attrs: bv32) { Access(attrs) == FamANDAssem }
  predicate IsFamilyOrAssembly(attrs: bv32) { Access(attrs) == FamORAssem }
  predicate IsPrivate(attrs: bv32) { Access(attrs) == PrivateAccess }
  predicate IsPublic(attrs: bv32) { Access(attrs) == PublicAccess }

  /** The word with its access bits replaced by v. */
  function WithAccess(attrs: bv32, v: bv32): bv32 { (attrs & !MemberAccessMask) | (v & MemberAccessMask) }

  /** Each access test holds exactly for its own value of the three access bits. */
  lemma {:induction false} AccessTests(attrs: bv32, v: bv32)
    requires v <= 7
    ensures IsPrivate(WithAccess(attrs, v)) <==> v == PrivateAccess
    ensures IsFamilyAndAssembly(WithAccess(attrs, v)) <==> v == FamANDAssem
    ensures IsAssembly(WithAccess(attrs, v)) <==> v == AssemblyAccess
    ensures IsFamily(WithAccess(attrs, v)) <==> v == Family
    ensures IsFamilyOrAssembly(WithAccess(attrs, v)) <==> v == FamORAssem
    ensures IsPublic(WithAccess(attrs, v)) <==> v == PublicAccess
  {
  }

  /**
   * Each single-bit test holds once its bit is set, and setting them leaves
   * the access bits as they were.
   */
  lemma {:induction false} BitTests(attrs: bv32)
    ensures IsAbstract(attrs | AbstractFlag)
    ensures IsFinal(attrs | FinalFlag)
    ensures IsHideBySig(attrs | HideBySigFlag)
    ensures IsSpecialName(attrs | SpecialNameFlag)
    ensures IsStatic(attrs | StaticFlag)
    ensures IsVirtual(attrs | VirtualFlag)
    ensures Access(attrs | (StaticFlag | FinalFlag | VirtualFlag | HideBySigFlag | AbstractFlag | SpecialNameFlag)) == Access(attrs)
  {
    SetOutside(attrs, StaticFlag | FinalFlag | VirtualFlag | HideBySigFlag | AbstractFlag | SpecialNameFlag, MemberAccessMask);
    SetClear(attrs, AbstractFlag);
    SetClear(attrs, FinalFlag);
    SetClear(attrs, HideBySigFlag);
    SetClear(attrs, SpecialNameFlag);
    SetClear(attrs, StaticFlag);
    SetClear(attrs, VirtualFlag);
  }

  /** A static method is never a constructor; a non-static constructor node with RTSpecialName is. */
  lemma {:induction false} ConstructorTest(attrs: bv32, isConstructorNode: bool)
    ensures !IsConstructor(attrs | StaticFlag, isConstructorNode)
    ensures IsConstructor((attrs & !StaticFlag) | RTSpecialNameFlag, isConstructorNode) <==> isConstructorNode
  {
  }

  /** How many of the six access tests hold. */
  function AccessTestCount(attrs: bv32): nat
  {
    (if IsAssembly(attrs) then 1 else 0) + (if IsFamily(attrs) then 1 else 0)
    + (if IsFamilyAndAssembly(attrs) then 1 else 0) + (if IsFamilyOrAssembly(attrs) then 1 else 0)
    + (if IsPrivate(attrs) then 1 else 0) + (if IsPublic(attrs) then 1 else 0)
  }

  /** At most one access test holds, and none exactly for the access values 0 and 7. */
  lemma {:induction false} AtMostOneAccess(attrs: bv32)
    ensures AccessTestCount(attrs) <= 1
    ensures AccessTestCount(attrs) == 0 <==> Access(attrs) == 0 || Access(attrs) == 7
  {
  }

  /** DocsMethodBase.AccessibilityLevel: the first matching test of the chain. */
  function Level(attrs: bv32): (r: Level)
    ensures r == Unknown <==> AccessTestCount(attrs) == 0
    ensures r == Public <==> Access(attrs) == 6
    ensures r == Internal <==> Access(attrs) == 3
    ensures r == Private <==> Access(attrs) == 1
    ensures r == Protected <==> Access(attrs) == 4
    ensures r == PrivateProtected <==> Access(attrs) == 2
    ensures r == ProtectedInternal <==> Access(attrs) == 5
  {
    if IsPublic(attrs) then Public
    else if IsAssembly(attrs) then Internal
    else if IsPrivate(attrs) then Private
    else if IsFamily(attrs) then Protected
    else if IsFamilyAndAssembly(attrs) then PrivateProtected
    else if IsFamilyOrAssembly(attrs) then ProtectedInternal
    else Unknown
  }
}


module FieldFlags {
  import opened FlagBits
  import opened Accessibility
  import MethodFlags

  /** FieldAttributes (section II.23.1.5 of ECMA-335). */
  const FieldAccessMask: bv32 := 0x7
  const PrivateAccess: bv32 := 0x1
  const FamANDAssem: bv32 := 0x2
  const AssemblyAccess: bv32 := 0x3
  const Family: bv32 := 0x4
  const FamORAssem: bv32 := 0x5
  const PublicAccess: bv32 := 0x6
  const StaticFlag: bv32 := 0x10
  const InitOnlyFlag: bv32 := 0x20
  const LiteralFlag: bv32 := 0x40
  const NotSerializedFlag: bv32 := 0x80
  const SpecialNameFlag: bv32 := 0x200
  const PinvokeImplFlag: bv32 := 0x2000

  function Access(attrs: bv32): bv32 { attrs & FieldAccessMask }

  predicate IsInitOnly(attrs: bv32) { IsSet(attrs, InitOnlyFlag) }
  predicate IsLiteral(attrs: bv32) { IsSet(attrs, LiteralFlag) }
  predicate IsNotSerialized(attrs: bv32) { IsSet(attrs, NotSerializedFlag) }
  predicate IsPinvokeImpl(attrs: bv32) { IsSet(attrs, PinvokeImplFlag) }
  predicate IsSpecialName(attrs: bv32) { IsSet(attrs, SpecialNameFlag) }
  predicate IsStatic(attrs: bv32) { IsSet(attrs, StaticFlag) }

  predicate IsAssembly(attrs: bv32) { Access(attrs) == AssemblyAccess }
  predicate IsFamily(attrs: bv32) { Access(attrs) == Family }
  predicate IsFamilyAndAssembly(attrs: bv32) { Access(attrs) == FamANDAssem }
  predicate IsFamilyOrAssembly(attrs: bv32) { Access(attrs) == FamORAssem }
  predicate IsPrivate(attrs: bv32) { Access(attrs) == PrivateAccess }
  predicate IsPublic(attrs: bv32) { Access(attrs) == PublicAccess }

  /** The word with its access bits replaced by v. */
  function WithAccess(attrs: bv32, v: bv32): bv32 { (attrs & !FieldAccessMask) | (v & FieldAccessMask) }

  /** Each access test holds exactly for its own value of the three access bits. */
  lemma {:induction false} AccessTests(attrs: bv32, v: bv32)
    requires v <= 7
    ensures IsPrivate(WithAccess(attrs, v)) <==> v == PrivateAccess
    ensures IsFamilyAndAssembly(WithAccess(attrs, v)) <==> v == FamANDAssem
    ensures IsAssembly(WithAccess(attrs, v)) <==> v == AssemblyAccess
    ensures IsFamily(WithAccess(attrs, v)) <==> v == Family
    ensures IsFamilyOrAssembly(WithAccess(attrs, v)) <==> v == FamORAssem
    ensures IsPublic(WithAccess(attrs, v)) <==> v == PublicAccess
  {
  }

  /**
   * Each single-bit test holds once its bit is set, and setting them leaves
   * the access bits as they were.
   */
  lemma {:induction false} BitTests(attrs: bv32)
    ensures IsInitOnly(attrs | InitOnlyFlag)
    ensures IsLiteral(attrs | LiteralFlag)
    ensures IsNotSerialized(attrs | NotSerializedFlag)
    ensures IsPinvokeImpl(attrs | PinvokeImplFlag)
    ensures IsSpecialName(attrs | SpecialNameFlag)
    ensures IsStatic(attrs | StaticFlag)
    ensures Access(attrs | (StaticFlag | InitOnlyFlag | LiteralFlag | NotSerializedFlag | SpecialNameFlag | PinvokeImplFlag)) == Access(attrs)
  {
    SetOutside(attrs, StaticFlag | InitOnlyFlag | LiteralFlag | NotSerializedFlag | SpecialNameFlag | PinvokeImplFlag, FieldAccessMask);
    SetClear(attrs, InitOnlyFlag);
    SetClear(attrs, LiteralFlag);
    SetClear(attrs, NotSerializedFlag);
    SetClear(attrs, PinvokeImplFlag);
    SetClear(attrs, SpecialNameFlag);
    SetClear(attrs, StaticFlag);
  }

  /** At most one of the six access tests holds for any word. */
  lemma {:induction false} AtMostOneAccess(attrs: bv32)
    ensures IsPublic(attrs) ==> (!IsAssembly(attrs) && !IsPrivate(attrs) && !IsFamily(attrs)
      && !IsFamilyAndAssembly(attrs) && !IsFamilyOrAssembly(attrs))
    ensures IsAssembly(attrs) ==> !IsPrivate(attrs) && !IsFamily(attrs) && !IsFamilyAndAssembly(attrs) && !IsFamilyOrAssembly(attrs)
    ensures IsPrivate(attrs) ==> !IsFamily(attrs) && !IsFamilyAndAssembly(attrs) && !IsFamilyOrAssembly(attrs)
    ensures IsFamily(attrs) ==> !IsFamilyAndAssembly(attrs) && !IsFamilyOrAssembly(attrs)
    ensures IsFamilyAndAssembly(attrs) ==> !IsFamilyOrAssembly(attrs)
  {
  }

  /** DocsFieldInfo.AccessibilityLevel: the same chain over the field access bits. */
  function Level(attrs: bv32): (r: Level)
    ensures r == Unknown <==> Access(attrs) == 0 || Access(attrs) == 7
  {
    if IsPublic(attrs) then Public
    else if IsAssembly(attrs) then Internal
    else if IsPrivate(attrs) then Private
    else if IsFamily(attrs) then Protected
    else if IsFamilyAndAssembly(attrs) then PrivateProtected
    else if IsFamilyOrAssembly(attrs) then ProtectedInternal
    else Unknown
  }

  /** Fields and methods share the access encoding, so their levels agree word for word. */
  lemma {:induction false} LevelAgreesWithMethods(attrs: bv32)
    ensures Level(attrs) == MethodFlags.Level(attrs)
  {
  }
}


module ParameterFlags {
  import opened FlagBits
  /** ParamAttributes (section II.23.1.13 of ECMA-335). */
  const InFlag: bv32 := 0x1
  const OutFlag: bv32 := 0x2
  const LcidFlag: bv32 := 0x4
  const RetvalFlag: bv32 := 0x8
  const OptionalFlag: bv32 := 0x10

  predicate IsIn(attrs: bv32) { IsSet(attrs, InFlag) }
  predicate IsLcid(attrs: bv32) { IsSet(attrs, LcidFlag) }
  predicate IsOptional(attrs: bv32) { IsSet(attrs, OptionalFlag) }
  predicate IsOut(attrs: bv32) { IsSet(attrs, OutFlag) }
  predicate IsRetval(attrs: bv32) { IsSet(attrs, RetvalFlag) }

  /** Setting the In bit makes IsIn hold and leaves the Out test as it was. */
  lemma {:induction false} SetInKeepsOut(attrs: bv32)
    ensures IsIn(attrs | InFlag)
    ensures IsOut(attrs | InFlag) == IsOut(attrs)
  {
  }

  /** Each test holds once its bit is set. */
  lemma {:induction false} BitTests(attrs: bv32)
    ensures IsIn(attrs | InFlag)
    ensures IsOut(attrs | OutFlag)
    ensures IsLcid(attrs | LcidFlag)
    ensures IsRetval(attrs | RetvalFlag)
    ensures IsOptional(attrs | OptionalFlag)
  {
    SetClear(attrs, InFlag);
    SetClear(attrs, OutFlag);
    SetClear(attrs, LcidFlag);
    SetClear(attrs, RetvalFlag);
    SetClear(attrs, OptionalFlag);
  }

  /** A zero word passes none of the tests. */
  lemma {:induction false} ZeroHasNoFlags()
    ensures !IsIn(0) && !IsOut(0) && !IsLcid(0) && !IsRetval(0) && !IsOptional(0)
  {
  }
}


module GenericParameterFlags {
  /** GenericParamAttributes (section II.23.1.7 of ECMA-335). */
  const VarianceMask: bv32 := 0x3
  const Covariant: bv32 := 0x1
  const Contravariant: bv32 := 0x2
  const SpecialConstraintMask: bv32 := 0x1C
  const ReferenceTypeConstraint: bv32 := 0x4
  const NotNullableValueTypeConstraint: bv32 := 0x8
  const DefaultConstructorConstraint: bv32 := 0x10

  function Variance(attrs: bv32): bv32 { attrs & VarianceMask }
  function SpecialConstraints(attrs: bv32): bv32 { attrs & SpecialConstraintMask }
}
