/** HEU_AttributeData as a value: one procedural attribute with its name, type tag, three
    independently nullable value arrays, lifecycle tag and Houdini descriptor, together with
    the class's three operations — copying the value arrays into another record, the
    field-by-field equivalence check, and the colour test. */
module Attribute {
  import opened Wrappers
  import NetArray

  /** C# `int`: a 32-bit signed integer. Values are only ever copied. */
  newtype Int32 = x: int | -0x8000_0000 <= x < 0x8000_0000

  /** C# `float`, kept as its 32-bit pattern: values are copied and compared, never computed on. */
  datatype Float32 = Float32(bits: bv32)

  /** A C# `string` reference, which may be null. */
  type NullableString = Option<string>

  /** The fields of the Houdini descriptor `HAPI_AttributeInfo` other than `typeInfo`; this class
      never looks into them. */
  type DescriptorFields(==, !new)

  /** The descriptor `_attributeInfo`, a value type. `typeInfo` holds the value of the Houdini
      enum `HAPI_AttributeTypeInfo`. */
  datatype AttributeInfo = AttributeInfo(typeInfo: int, fields: DescriptorFields)

  /** `HEU_AttributeData.AttributeType`, numbered from -1. */
  datatype AttributeType = Undefined | Bool | Int | Float | String | Max
  {
    /** The enum's underlying integer. */
    function Ordinal(): (r: int)
      ensures -1 <= r <= 4
      ensures r == -1 <==> Undefined?
      ensures r == 4 <==> Max?
    {
      match this
      case Undefined => -1
      case Bool => 0
      case Int => 1
      case Float => 2
      case String => 3
      case Max => 4
    }
  }

  /** The named member of `AttributeType` with underlying value `i`, if there is one. */
  function AttributeTypeOf(i: int): (r: Option<AttributeType>)
    ensures r.Some? <==> -1 <= i <= 4
    ensures r.Some? ==> r.value.Ordinal() == i
  {
    if i == -1 then Some(Undefined)
    else if i == 0 then Some(Bool)
    else if i == 1 then Some(Int)
    else if i == 2 then Some(Float)
    else if i == 3 then Some(String)
    else if i == 4 then Some(Max)
    else None
  }

  /** `HEU_AttributeData.AttributeState`: INVALID means the record must be re-created, SYNCED
      that it matches Houdini, LOCAL_DIRTY that local edits still have to be uploaded. */
  datatype AttributeState = Invalid | Synced | LocalDirty
  {
    /** The enum's underlying integer. */
    function Ordinal(): (r: int)
      ensures 0 <= r <= 2
      ensures r == 0 <==> Invalid?
    {
      match this
      case Invalid => 0
      case Synced => 1
      case LocalDirty => 2
    }
  }

  /** The named member of `AttributeState` with underlying value `i`, if there is one. */
  function AttributeStateOf(i: int): (r: Option<AttributeState>)
    ensures r.Some? <==> 0 <= i <= 2
    ensures r.Some? ==> r.value.Ordinal() == i
  {
    if i == 0 then Some(Invalid)
    else if i == 1 then Some(Synced)
    else if i == 2 then Some(LocalDirty)
    else None
  }

  /** Every named member of an enum survives the trip through its underlying integer. */
  lemma OrdinalRoundTrip(t: AttributeType, s: AttributeState)
    ensures AttributeTypeOf(t.Ordinal()) == Some(t)
    ensures AttributeStateOf(s.Ordinal()) == Some(s)
  {
  }

  /** The contents of one `HEU_AttributeData` object. No invariant ties the type tag to the
      arrays: any of the three may be null or populated independently of the others. */
  datatype AttributeData = AttributeData(
    attributeInfo: AttributeInfo,
    name: NullableString,
    attributeType: AttributeType,
    intValues: Option<seq<Int32>>,
    floatValues: Option<seq<Float32>>,
    stringValues: Option<seq<NullableString>>,
    attributeState: AttributeState)

  /** The exceptions the modelled calls can throw. */
  datatype Exception = NullReference

  /* ----- CopyValuesTo ----- */

  /** One of the three sections of `CopyValuesTo`: a null source makes the destination null;
      otherwise the destination is resized to the source's length and overwritten element by
      element. `default` is the element type's default value, which `Resize` fills in. */
  function CopyArray<T>(src: Option<seq<T>>, dst: Option<seq<T>>, default: T): (r: Option<seq<T>>)
    ensures src.None? ==> r.None?
    ensures src.Some? ==> r.Some? && |r.value| == |src.value|
    ensures src.Some? ==> forall i :: 0 <= i < |src.value| ==> r.value[i] == src.value[i]
    ensures r == src
  {
    match src
    case None => None
    case Some(s) =>
      var arraySize := |s|;
      var resized := NetArray.Resize(dst, arraySize, default);
      Some(NetArray.Copy(s, resized, arraySize))
  }

  /** `src.CopyValuesTo(dest)`: the record `dest` becomes. Its three value arrays end up equal
      to the source's, null for null; its descriptor, name, type and state are left alone. */
  function CopyValuesTo(src: AttributeData, dest: AttributeData): (r: AttributeData)
    ensures r.intValues == src.intValues
    ensures r.floatValues == src.floatValues
    ensures r.stringValues == src.stringValues
    ensures r.attributeInfo == dest.attributeInfo && r.name == dest.name
    ensures r.attributeType == dest.attributeType && r.attributeState == dest.attributeState
  {
    dest.(intValues := CopyArray(src.intValues, dest.intValues, 0),
          floatValues := CopyArray(src.floatValues, dest.floatValues, Float32(0)),
          stringValues := CopyArray(src.stringValues, dest.stringValues, None))
  }

  /** `src.CopyValuesTo(dest)` with `dest` a reference that may be null: a null destination
      throws at its first field access, whichever branch of the first section runs. */
  function CopyValuesToRef(src: AttributeData, dest: Option<AttributeData>): (r: Result<AttributeData, Exception>)
    ensures dest.None? <==> r == Failure(NullReference)
    ensures dest.Some? ==> r.Success?
    ensures r.Success? ==>
              && r.value.intValues == src.intValues
              && r.value.floatValues == src.floatValues
              && r.value.stringValues == src.stringValues
              && r.value.name == dest.value.name
              && r.value.attributeInfo == dest.value.attributeInfo
              && r.value.attributeType == dest.value.attributeType
              && r.value.attributeState == dest.value.attributeState
  {
    match dest
    case None => Failure(NullReference)
    case Some(d) => Success(CopyValuesTo(src, d))
  }

  /** Copying twice from the same source leaves the destination as copying once does. */
  lemma CopyValuesToIdempotent(src: AttributeData, dest: AttributeData)
    ensures CopyValuesTo(src, CopyValuesTo(src, dest)) == CopyValuesTo(src, dest)
  {
  }

  /** The three arrays are copied independently: what one destination array becomes depends
      only on the source array of the same kind, not on the other arrays nor on the destination. */
  lemma CopyArraysIndependent(s1: AttributeData, s2: AttributeData, d1: AttributeData, d2: AttributeData)
    ensures s1.intValues == s2.intValues ==> CopyValuesTo(s1, d1).intValues == CopyValuesTo(s2, d2).intValues
    ensures s1.floatValues == s2.floatValues ==> CopyValuesTo(s1, d1).floatValues == CopyValuesTo(s2, d2).floatValues
    ensures s1.stringValues == s2.stringValues ==> CopyValuesTo(s1, d1).stringValues == CopyValuesTo(s2, d2).stringValues
  {
  }

  /** Copying a record's values onto itself changes nothing. */
  lemma CopyOntoSelf(a: AttributeData)
    ensures CopyValuesTo(a, a) == a
  {
  }

  /* ----- IsEquivalentTo ----- */

  /** The fields `IsEquivalentTo` checks. */
  datatype Field = InfoField | NameField | TypeField | IntValuesField | FloatValuesField
                 | StringValuesField | StateField

  /** The order in which `IsEquivalentTo` checks the fields. */
  const CheckOrder: seq<Field> :=
    [InfoField, NameField, TypeField, IntValuesField, FloatValuesField, StringValuesField, StateField]

  /** The per-field equivalence applied by `HEU_TestHelpers.AssertTrueLogEquivalent`, one
      relation per field type; the descriptor is compared through `ToTestObject()`, which `info`
      stands for as a whole. */
  datatype Equivalences = Equivalences(
    info: (AttributeInfo, AttributeInfo) -> bool,
    name: (NullableString, NullableString) -> bool,
    attributeType: (AttributeType, AttributeType) -> bool,
    ints: (Option<seq<Int32>>, Option<seq<Int32>>) -> bool,
    floats: (Option<seq<Float32>>, Option<seq<Float32>>) -> bool,
    strings: (Option<seq<NullableString>>, Option<seq<NullableString>>) -> bool,
    state: (AttributeState, AttributeState) -> bool)

  /** `IsEquivalentTo` checks every field. */
  lemma EveryFieldChecked()
    ensures forall f: Field :: f in CheckOrder
  {
    forall f: Field
      ensures f in CheckOrder
    {
      match f
      case InfoField => assert CheckOrder[0] == f;
      case NameField => assert CheckOrder[1] == f;
      case TypeField => assert CheckOrder[2] == f;
      case IntValuesField => assert CheckOrder[3] == f;
      case FloatValuesField => assert CheckOrder[4] == f;
      case StringValuesField => assert CheckOrder[5] == f;
      case StateField => assert CheckOrder[6] == f;
    }
  }

  /** Whether the check of field `f` passes when comparing `a` with `b`. */
  function Check(eq: Equivalences, a: AttributeData, b: AttributeData, f: Field): bool
  {
    match f
    case InfoField => eq.info(a.attributeInfo, b.attributeInfo)
    case NameField => eq.name(a.name, b.name)
    case TypeField => eq.attributeType(a.attributeType, b.attributeType)
    case IntValuesField => eq.ints(a.intValues, b.intValues)
    case FloatValuesField => eq.floats(a.floatValues, b.floatValues)
    case StringValuesField => eq.strings(a.stringValues, b.stringValues)
    case StateField => eq.state(a.attributeState, b.attributeState)
  }

  /** Runs the checks of `fields` in order, each one clearing `bResult` when it fails and
      leaving it as it is otherwise. No check is skipped after a failure. */
  function Accumulate(eq: Equivalences, a: AttributeData, b: AttributeData, bResult: bool, fields: seq<Field>): (r: bool)
    ensures r <==> bResult && forall i :: 0 <= i < |fields| ==> Check(eq, a, b, fields[i])
    decreases |fields|
  {
    if fields == [] then bResult
    else Accumulate(eq, a, b, bResult && Check(eq, a, b, fields[0]), fields[1..])
  }

  /** `a.IsEquivalentTo(other)`: false for a null `other`; otherwise true exactly when every
      field check passes, so that any single failing check makes it false. */
  function IsEquivalentTo(a: AttributeData, other: Option<AttributeData>, eq: Equivalences): (r: bool)
    ensures other.None? ==> !r
    ensures other.Some? ==> (r <==> forall f: Field :: Check(eq, a, other.value, f))
  {
    match other
    case None => false
    case Some(b) =>
      EveryFieldChecked();
      Accumulate(eq, a, b, true, CheckOrder)
  }

  /** The fields among `fields` whose check fails: those `AssertTrueLogEquivalent`
      reports. */
  function FailedAmong(eq: Equivalences, a: AttributeData, b: AttributeData, fields: seq<Field>): (r: seq<Field>)
    ensures |r| <= |fields|
    ensures forall f :: f in r <==> f in fields && !Check(eq, a, b, f)
    decreases |fields|
  {
    if fields == [] then []
    else if Check(eq, a, b, fields[0]) then FailedAmong(eq, a, b, fields[1..])
    else [fields[0]] + FailedAmong(eq, a, b, fields[1..])
  }

  /** The fields that fail when `a` is compared with `b`. */
  function FailedFields(eq: Equivalences, a: AttributeData, b: AttributeData): (r: seq<Field>)
    ensures forall f :: f in r <==> !Check(eq, a, b, f)
  {
    EveryFieldChecked();
    FailedAmong(eq, a, b, CheckOrder)
  }

  /** A non-null record is equivalent exactly when no field check fails. */
  lemma EquivalentIffNoFailures(eq: Equivalences, a: AttributeData, b: AttributeData)
    ensures IsEquivalentTo(a, Some(b), eq) <==> FailedFields(eq, a, b) == []
  {
  }

  /** Each of the per-field relations is reflexive. */
  ghost predicate ReflexiveChecks(eq: Equivalences)
  {
    && (forall x :: eq.info(x, x))
    && (forall x :: eq.name(x, x))
    && (forall x :: eq.attributeType(x, x))
    && (forall x :: eq.ints(x, x))
    && (forall x :: eq.floats(x, x))
    && (forall x :: eq.strings(x, x))
    && (forall x :: eq.state(x, x))
  }

  /** Each of the per-field relations is symmetric. */
  ghost predicate SymmetricChecks(eq: Equivalences)
  {
    && (forall x, y :: eq.info(x, y) ==> eq.info(y, x))
    && (forall x, y :: eq.name(x, y) ==> eq.name(y, x))
    && (forall x, y :: eq.attributeType(x, y) ==> eq.attributeType(y, x))
    && (forall x, y :: eq.ints(x, y) ==> eq.ints(y, x))
    && (forall x, y :: eq.floats(x, y) ==> eq.floats(y, x))
    && (forall x, y :: eq.strings(x, y) ==> eq.strings(y, x))
    && (forall x, y :: eq.state(x, y) ==> eq.state(y, x))
  }

  /** With reflexive per-field checks, every record is equivalent to itself. */
  lemma EquivalenceReflexive(eq: Equivalences, a: AttributeData)
    requires ReflexiveChecks(eq)
    ensures IsEquivalentTo(a, Some(a), eq)
  {
  }

  /** With symmetric per-field checks, equivalence of two non-null records does not depend on
      which one the method is called on. */
  lemma EquivalenceSymmetric(eq: Equivalences, a: AttributeData, b: AttributeData)
    requires SymmetricChecks(eq)
    ensures IsEquivalentTo(a, Some(b), eq) <==> IsEquivalentTo(b, Some(a), eq)
  {
  }

  /** The structural instance of the per-field checks: every field compared for equality, a
      null array distinct from an empty one and arrays compared element by element. */
  function Structural(): (eq: Equivalences)
    ensures ReflexiveChecks(eq) && SymmetricChecks(eq)
  {
    Equivalences((x, y) => x == y, (x, y) => x == y, (x, y) => x == y, (x, y) => x == y,
                 (x, y) => x == y, (x, y) => x == y, (x, y) => x == y)
  }

  /** Under the structural checks, equivalence is equality of the two records. */
  lemma StructuralEquivalenceIsEquality(a: AttributeData, b: AttributeData)
    ensures IsEquivalentTo(a, Some(b), Structural()) <==> a == b
  {
    var eq := Structural();
    if IsEquivalentTo(a, Some(b), eq) {
      assert Check(eq, a, b, InfoField) && Check(eq, a, b, NameField);
      assert Check(eq, a, b, TypeField) && Check(eq, a, b, StateField);
      assert Check(eq, a, b, IntValuesField) && Check(eq, a, b, FloatValuesField);
      assert Check(eq, a, b, StringValuesField);
    } else {
      EquivalenceReflexive(eq, a);
    }
  }

  /** When every check before the last passes and the last fails, exactly the last field is
      reported. */
  lemma {:induction false} OnlyLastFails(eq: Equivalences, a: AttributeData, b: AttributeData, fields: seq<Field>)
    requires |fields| > 0
    requires forall i :: 0 <= i < |fields| - 1 ==> Check(eq, a, b, fields[i])
    requires !Check(eq, a, b, fields[|fields| - 1])
    ensures FailedAmong(eq, a, b, fields) == [fields[|fields| - 1]]
    decreases |fields|
  {
    if |fields| > 1 {
      assert Check(eq, a, b, fields[0]);
      OnlyLastFails(eq, a, b, fields[1..]);
    }
  }

  /** Two records that differ only in their state fail exactly the state check. */
  lemma StateOnlyMismatch(a: AttributeData, s: AttributeState)
    requires s != a.attributeState
    ensures FailedFields(Structural(), a, a.(attributeState := s)) == [StateField]
    ensures !IsEquivalentTo(a, Some(a.(attributeState := s)), Structural())
  {
    var eq, b := Structural(), a.(attributeState := s);
    assert !Check(eq, a, b, StateField);
    OnlyLastFails(eq, a, b, CheckOrder);
  }

  /** After a copy, the destination is structurally equivalent to the source exactly when it
      already agreed with it on descriptor, name, type and state: the arrays always agree. */
  lemma CopyMakesValuesEquivalent(src: AttributeData, dest: AttributeData)
    ensures IsEquivalentTo(CopyValuesTo(src, dest), Some(src), Structural()) <==>
      && dest.attributeInfo == src.attributeInfo && dest.name == src.name
      && dest.attributeType == src.attributeType && dest.attributeState == src.attributeState
  {
    StructuralEquivalenceIsEquality(CopyValuesTo(src, dest), src);
  }

  /* ----- IsColorAttribute ----- */

  /** Constants of the Houdini API that the colour test reads: the reserved colour attribute
      name `HEU_HAPIConstants.HAPI_ATTRIB_COLOR` and the value of
      `HAPI_AttributeTypeInfo.HAPI_ATTRIBUTE_TYPE_COLOR`. */
  datatype HapiConstants = HapiConstants(attribColor: string, typeInfoColor: int)

  /** `a.IsColorAttribute()`. It calls `Equals` on the name, so a null name throws; otherwise
      the attribute is a colour attribute when it has the reserved colour name or its
      descriptor is tagged as colour, either one sufficing. */
  function IsColorAttribute(a: AttributeData, k: HapiConstants): (r: Result<bool, Exception>)
    ensures a.name.None? <==> r == Failure(NullReference)
    ensures r == Success(true) <==> a.name.Some? && (a.name.value == k.attribColor || a.attributeInfo.typeInfo == k.typeInfoColor)
    ensures r == Success(false) <==> a.name.Some? && a.name.value != k.attribColor && a.attributeInfo.typeInfo != k.typeInfoColor
  {
    match a.name
    case None => Failure(NullReference)
    case Some(n) => Success(n == k.attribColor || a.attributeInfo.typeInfo == k.typeInfoColor)
  }

  /** The colour test reads only the name and the descriptor's type-info tag: the type tag,
      the value arrays and the state play no part. */
  lemma ColorDependsOnNameAndTag(a: AttributeData, b: AttributeData, k: HapiConstants)
    requires a.name == b.name && a.attributeInfo.typeInfo == b.attributeInfo.typeInfo
    ensures IsColorAttribute(a, k) == IsColorAttribute(b, k)
  {
  }
}
