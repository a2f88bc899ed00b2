# HEU_AttributeData in Dafny

A model of `HEU_AttributeData`, the Houdini Engine for Unity record that holds one procedural
attribute moving between a Houdini session and a Unity object: its name, its type tag
(`AttributeType`), three independently nullable value arrays (`int`, `float`, `string`), its
lifecycle tag (`AttributeState`: INVALID, SYNCED, LOCAL_DIRTY) and the Houdini descriptor
`HAPI_AttributeInfo`. The class has three operations, all modelled:

- `CopyValuesTo(dest)` copies the three value arrays into another record with
  `System.Array.Resize` and `System.Array.Copy`;
- `IsEquivalentTo(other)` compares two records field by field, accumulating one boolean;
- `IsColorAttribute()` tells whether the attribute holds colours.

Files:

- `wrappers.dfy` (module `Wrappers`): `Option` for C# references that may be null, `Result`
  for calls that may throw.
- `net_array.dfy` (module `NetArray`): the .NET semantics of `Array.Resize` and `Array.Copy`,
  on sequences and on heap arrays.
- `attribute.dfy` (module `Attribute`): the record as a value and the three operations as
  functions, with the lemmas relating them.
- `attribute_object.dfy` (module `AttributeObject`): the record as a class with nullable
  array fields. Its `CopyValuesTo` method is proved to produce what the value model
  `Attribute.CopyValuesTo` produces. It also states which array each destination field refers
  to afterwards: null when the source's array is null, the array it already held when that
  had the source's length, a new array otherwise.

Representation choices. A C# `int` is `Int32`, a 32-bit range newtype. A `float` is kept as
its 32-bit pattern (`Float32`): floats are only copied and compared, never computed on. A
`string` may be null, so it is `Option<string>`; the same holds for `_name` and for string
array elements. The descriptor fields other than `typeInfo` form an abstract type that the
class never looks into. The per-field comparison `HEU_TestHelpers.AssertTrueLogEquivalent` is
not part of this model. It is a parameter: a record of seven relations (`Equivalences`), one
per compared field. The Houdini constants `HAPI_ATTRIB_COLOR` and
`HAPI_ATTRIBUTE_TYPE_COLOR` are also parameters (`HapiConstants`). A `Structural` instance
compares every field for equality. Under it, a null array differs from an empty one.

Two properties of the code that the model keeps:

- `CopyValuesTo` does not make the copied arrays unshared. `Array.Resize` keeps the
  destination's array whenever its length already equals the source's, and the copy then
  overwrites that array in place. A destination array of that length that was shared with the
  source, or with a third record, therefore stays shared, and the third record sees the new
  values. A shared destination array of another length is replaced by a new array and never
  written: a third record sharing it keeps its old values and stops sharing with the
  destination. `AttributeObject.ResizedFrom` states which reference the destination holds
  afterwards.
- Nothing in the class ties the type tag to the arrays, so the model allows any combination of
  null and non-null arrays.

## Model

| member | source | states |
|---|---|---|
| NetArray.Resize | Platformer/Assets/Plugins/HoudiniEngineUnity/Scripts/Attributes/HEU_AttributeData.cs:88-89 | the resized contents have exactly the requested length, keep the old prefix and hold the default value beyond it; an array that already has that length comes back unchanged |
| NetArray.Copy | Platformer/Assets/Plugins/HoudiniEngineUnity/Scripts/Attributes/HEU_AttributeData.cs:90 | the first `len` destination elements become the source's, the rest of the destination is kept, and a whole-array copy onto an array of the same length yields the source |
| NetArray.ResizeArray | Platformer/Assets/Plugins/HoudiniEngineUnity/Scripts/Attributes/HEU_AttributeData.cs:89 | on heap arrays: the same reference when the length already matches, a newly allocated array otherwise, with contents as `Resize` gives |
| NetArray.ArrayCopy | Platformer/Assets/Plugins/HoudiniEngineUnity/Scripts/Attributes/HEU_AttributeData.cs:90 | on heap arrays, including source and destination being the same array: contents afterwards are as `Copy` gives |
| Attribute.AttributeType.Ordinal | Platformer/Assets/Plugins/HoudiniEngineUnity/Scripts/Attributes/HEU_AttributeData.cs:49-57 | the underlying value of each member (UNDEFINED=-1, BOOL=0, INT=1, FLOAT=2, STRING=3, MAX=4) lies in -1..4, with -1 only for UNDEFINED and 4 only for MAX; the full numbering is pinned by `AttributeTypeOf` and `OrdinalRoundTrip` |
| Attribute.AttributeState.Ordinal | Platformer/Assets/Plugins/HoudiniEngineUnity/Scripts/Attributes/HEU_AttributeData.cs:71-76 | the underlying value of each member (INVALID=0, SYNCED=1, LOCAL_DIRTY=2) lies in 0..2, with 0 only for INVALID, the value a zero-filled field holds; the full numbering is pinned by `AttributeStateOf` and `OrdinalRoundTrip` |
| Attribute.AttributeTypeOf | Platformer/Assets/Plugins/HoudiniEngineUnity/Scripts/Attributes/HEU_AttributeData.cs:49-57 | an integer names an `AttributeType` member exactly when it lies in -1..4, and that member's underlying value is the integer |
| Attribute.AttributeStateOf | Platformer/Assets/Plugins/HoudiniEngineUnity/Scripts/Attributes/HEU_AttributeData.cs:71-76 | an integer names an `AttributeState` member exactly when it lies in 0..2, and that member's underlying value is the integer |
| Attribute.OrdinalRoundTrip | Platformer/Assets/Plugins/HoudiniEngineUnity/Scripts/Attributes/HEU_AttributeData.cs:49-76 | every member of both enums is recovered from its underlying integer |
| Attribute.CopyArray | Platformer/Assets/Plugins/HoudiniEngineUnity/Scripts/Attributes/HEU_AttributeData.cs:82-91 | one copy section: a null source gives null; otherwise the result is non-null, has the source's length and equals it element by element, whatever the destination held |
| Attribute.CopyValuesTo | Platformer/Assets/Plugins/HoudiniEngineUnity/Scripts/Attributes/HEU_AttributeData.cs:80-114 | the destination's three arrays end equal to the source's, null for null; its descriptor, name, type and state are unchanged |
| Attribute.CopyValuesToRef | Platformer/Assets/Plugins/HoudiniEngineUnity/Scripts/Attributes/HEU_AttributeData.cs:80-89 | a null destination throws a null-reference exception; a non-null one gets the source's arrays and keeps its other fields |
| Attribute.CopyValuesToIdempotent | Platformer/Assets/Plugins/HoudiniEngineUnity/Scripts/Attributes/HEU_AttributeData.cs:80-114 | copying twice from the same source gives the same destination as copying once |
| Attribute.CopyArraysIndependent | Platformer/Assets/Plugins/HoudiniEngineUnity/Scripts/Attributes/HEU_AttributeData.cs:82-113 | each destination array depends only on the source array of its own kind, not on the other arrays or on the destination |
| Attribute.CopyOntoSelf | Platformer/Assets/Plugins/HoudiniEngineUnity/Scripts/Attributes/HEU_AttributeData.cs:80-114 | copying a record's values onto itself changes nothing |
| Attribute.EveryFieldChecked | Platformer/Assets/Plugins/HoudiniEngineUnity/Scripts/Attributes/HEU_AttributeData.cs:128-144 | the check sequence covers every one of the seven compared fields |
| Attribute.Accumulate | Platformer/Assets/Plugins/HoudiniEngineUnity/Scripts/Attributes/HEU_AttributeData.cs:118-146 | running the checks in order on `bResult` ends true exactly when `bResult` started true and every check passed |
| Attribute.IsEquivalentTo | Platformer/Assets/Plugins/HoudiniEngineUnity/Scripts/Attributes/HEU_AttributeData.cs:116-147 | false for a null argument; otherwise true exactly when the descriptor, name, type, int, float, string and state checks all pass |
| Attribute.FailedAmong | Platformer/Assets/Plugins/HoudiniEngineUnity/Scripts/Attributes/HEU_AttributeData.cs:128-144 | the failing fields among those checked, each listed exactly when its check fails |
| Attribute.FailedFields | Platformer/Assets/Plugins/HoudiniEngineUnity/Scripts/Attributes/HEU_AttributeData.cs:128-144 | a field is among the failing ones exactly when its check fails; no check is skipped after an earlier failure |
| Attribute.EquivalentIffNoFailures | Platformer/Assets/Plugins/HoudiniEngineUnity/Scripts/Attributes/HEU_AttributeData.cs:118-146 | a non-null record is equivalent exactly when the list of failing fields is empty |
| Attribute.EquivalenceReflexive | Platformer/Assets/Plugins/HoudiniEngineUnity/Scripts/Attributes/HEU_AttributeData.cs:128-146 | with reflexive per-field checks every record is equivalent to itself |
| Attribute.EquivalenceSymmetric | Platformer/Assets/Plugins/HoudiniEngineUnity/Scripts/Attributes/HEU_AttributeData.cs:128-146 | with symmetric per-field checks, equivalence of two non-null records does not depend on the receiver |
| Attribute.StructuralEquivalenceIsEquality | Platformer/Assets/Plugins/HoudiniEngineUnity/Scripts/Attributes/HEU_AttributeData.cs:128-146 | under field-wise equality checks, two records are equivalent exactly when they are equal |
| Attribute.OnlyLastFails | Platformer/Assets/Plugins/HoudiniEngineUnity/Scripts/Attributes/HEU_AttributeData.cs:128-144 | when every check but the last passes and the last fails, exactly the last field is reported |
| Attribute.StateOnlyMismatch | Platformer/Assets/Plugins/HoudiniEngineUnity/Scripts/Attributes/HEU_AttributeData.cs:143-146 | two records differing only in state fail exactly the state check and are not equivalent |
| Attribute.CopyMakesValuesEquivalent | Platformer/Assets/Plugins/HoudiniEngineUnity/Scripts/Attributes/HEU_AttributeData.cs:80-147 | after a copy the destination is structurally equivalent to the source exactly when it already agreed on descriptor, name, type and state |
| Attribute.IsColorAttribute | Platformer/Assets/Plugins/HoudiniEngineUnity/Scripts/Attributes/HEU_AttributeData.cs:65-69 | a null name throws; otherwise true exactly when the name is the reserved colour name or the descriptor's type-info is the colour tag, and false exactly when neither holds |
| Attribute.ColorDependsOnNameAndTag | Platformer/Assets/Plugins/HoudiniEngineUnity/Scripts/Attributes/HEU_AttributeData.cs:65-69 | two records with the same name and descriptor type-info get the same colour verdict, whatever their other fields |
| AttributeObject.AttributeRecord.constructor | Platformer/Assets/Plugins/HoudiniEngineUnity/Scripts/Attributes/HEU_AttributeData.cs:43-78 | the implicit default constructor: null name and null arrays, type BOOL and state INVALID (both underlying value 0), and a descriptor whose type-info is 0 |
| AttributeObject.CopyArrayTo | Platformer/Assets/Plugins/HoudiniEngineUnity/Scripts/Attributes/HEU_AttributeData.cs:82-91 | one copy section on heap arrays: the resulting contents equal the source's, and the reference is null, the reused destination or a fresh array, and a replaced destination array is left unwritten |
| AttributeObject.AttributeRecord.CopyValuesTo | Platformer/Assets/Plugins/HoudiniEngineUnity/Scripts/Attributes/HEU_AttributeData.cs:80-114 | the destination ends as the value model says, the source is unchanged, each destination array is null for a null source array and otherwise reused or fresh as `Array.Resize` decides, an array shared with the source stays shared, and a replaced destination array keeps its contents |
| AttributeObject.AttributeRecord.CopyIntValuesTo | Platformer/Assets/Plugins/HoudiniEngineUnity/Scripts/Attributes/HEU_AttributeData.cs:82-91 | the int section: destination contents become the source's, the source is unchanged, and a replaced destination array keeps its contents |
| AttributeObject.AttributeRecord.CopyFloatValuesTo | Platformer/Assets/Plugins/HoudiniEngineUnity/Scripts/Attributes/HEU_AttributeData.cs:93-102 | the float section: destination contents become the source's, the source is unchanged, and a replaced destination array keeps its contents |
| AttributeObject.AttributeRecord.CopyStringValuesTo | Platformer/Assets/Plugins/HoudiniEngineUnity/Scripts/Attributes/HEU_AttributeData.cs:104-113 | the string section: destination contents become the source's, the source is unchanged, and a replaced destination array keeps its contents |

## Left out

- AdventureGame/GameObjectcandTransformLab/Assets/Scripts/TransformControler.cs: a Unity per-frame callback whose only logic is floating-point motion written into an engine-owned transform.
- Logging through `HEU_Logger.LogError` and the diagnostics of `AssertTrueLogEquivalent`: external and unseen. Only their effect on the boolean result is kept. `FailedFields` says which checks fail, not what is logged.
- The internals of `HAPI_AttributeInfo` and `ToTestObject()`: external Houdini API types. The descriptor is opaque apart from `typeInfo`, and its comparison is one abstract relation.
- The actual values of `HAPI_ATTRIB_COLOR` and `HAPI_ATTRIBUTE_TYPE_COLOR`: defined outside this class. They are parameters.
- The body of `AssertTrueLogEquivalent`: not part of this model. Each per-field comparison is a parameter. Reflexivity and symmetry of equivalence are proved only under reflexive or symmetric per-field checks.
- Attribute.AttributeTypeOf: a C# enum variable can hold any `int`, but the model's enum datatypes hold only the named members.
- NetArray.Copy: the `ArgumentException` that `Array.Copy` throws for a length beyond either array is a precondition here. `CopyValuesTo` always passes the source's length after resizing the destination to it, so that path is never reached.
- The `OutOfMemoryException` that `Array.Resize` could throw is not modelled: allocation always succeeds.
- Serialization attributes and `InternalsVisibleTo`: compiler and serializer plumbing.
