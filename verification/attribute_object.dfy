/** HEU_AttributeData as a heap object: the three value arrays are nullable array references,
    so the copy is stated with the reference behaviour of `System.Array.Resize` — a null
    source array makes the destination field null, a destination array that already has the
    source's length is reused and overwritten, any other is replaced by a newly allocated one. */
module AttributeObject {
  import opened Wrappers
  import opened Attribute
  import NetArray

  /** One of the three sections of `CopyValuesTo` on heap arrays: returns the array the
      destination field refers to afterwards. A null source gives null; otherwise `dst` is
      resized to the source's length and the source is copied into it. */
  method CopyArrayTo<T>(src: array?<T>, dst: array?<T>, default: T) returns (r: array?<T>)
    modifies dst
    ensures NetArray.Contents(r) == old(NetArray.Contents(src))
    ensures ResizedFrom(src, dst, r)
  {
    if src == null {
      r := null;
    } else {
      var arraySize := src.Length;
      var resized := NetArray.ResizeArray(dst, arraySize, default);
      NetArray.ArrayCopy(src, resized, arraySize);
      r := resized;
    }
  }

  /** Which array a destination field refers to after one section of the copy, given the source
      array `src` and the array `before` it referred to when the copy started: null for a null
      source, `before` itself when it already had the source's length, and otherwise an array
      allocated by the copy, the array it replaces being left as it was. In particular a
      destination array that was the source's own array still is afterwards. */
  twostate predicate ResizedFrom<T>(src: array?<T>, before: array?<T>, new after: array?<T>)
    reads before
  {
    if src == null then after == null
    else if before != null && before.Length == src.Length then after == before
    else after != null && fresh(after) && (before != null ==> before[..] == old(before[..]))
  }

  class AttributeRecord {
    var attributeInfo: AttributeInfo
    var name: NullableString
    var attributeType: AttributeType
    var intValues: array?<Int32>
    var floatValues: array?<Float32>
    var stringValues: array?<NullableString>
    var attributeState: AttributeState

    /** The class's implicit default constructor: everything zero-filled, so a null name and
        null arrays, the type tag and state whose underlying value is 0 (BOOL and INVALID) and a
        descriptor whose `typeInfo` is 0. The descriptor's other fields are abstract here, so
        their default value is passed in. */
    constructor (defaultFields: DescriptorFields)
      ensures Snapshot() == AttributeData(AttributeInfo(0, defaultFields), None, Bool, None, None, None, Invalid)
      ensures Snapshot().attributeType.Ordinal() == 0 && Snapshot().attributeState.Ordinal() == 0
    {
      this.attributeInfo := AttributeInfo(0, defaultFields);
      this.name := None;
      this.attributeType := Bool;
      this.intValues := null;
      this.floatValues := null;
      this.stringValues := null;
      this.attributeState := Invalid;
    }

    /** The record's current contents as a value. */
    function Snapshot(): (d: AttributeData)
      reads this, intValues, floatValues, stringValues
    {
      AttributeData(attributeInfo, name, attributeType, NetArray.Contents(intValues),
                    NetArray.Contents(floatValues), NetArray.Contents(stringValues), attributeState)
    }

    /** `CopyValuesTo(dest)`. The destination's contents become those the value model gives,
        the source's contents are unchanged, and each destination array is null when the
        source's array is null, the array it already held when that had the source's length,
        and a fresh one otherwise. A destination array that
        already was the source's array stays shared with it; a replaced one is never written. */
    method CopyValuesTo(dest: AttributeRecord)
      modifies dest`intValues, dest`floatValues, dest`stringValues
      modifies dest.intValues, dest.floatValues, dest.stringValues
      ensures dest.Snapshot() == Attribute.CopyValuesTo(old(Snapshot()), old(dest.Snapshot()))
      ensures Snapshot() == old(Snapshot())
      ensures intValues == old(intValues) && floatValues == old(floatValues)
      ensures stringValues == old(stringValues)
      ensures ResizedFrom(old(intValues), old(dest.intValues), dest.intValues)
      ensures ResizedFrom(old(floatValues), old(dest.floatValues), dest.floatValues)
      ensures ResizedFrom(old(stringValues), old(dest.stringValues), dest.stringValues)
      ensures old(dest.intValues) == old(intValues) ==> dest.intValues == intValues
      ensures old(dest.floatValues) == old(floatValues) ==> dest.floatValues == floatValues
      ensures old(dest.stringValues) == old(stringValues) ==> dest.stringValues == stringValues
    {
      CopyIntValuesTo(dest);
      CopyFloatValuesTo(dest);
      CopyStringValuesTo(dest);
    }

    /** The `intValues` section of `CopyValuesTo`. */
    method CopyIntValuesTo(dest: AttributeRecord)
      modifies dest`intValues, dest.intValues
      ensures dest.Snapshot() == old(dest.Snapshot()).(intValues := old(Snapshot()).intValues)
      ensures Snapshot() == old(Snapshot()) && intValues == old(intValues)
      ensures ResizedFrom(old(intValues), old(dest.intValues), dest.intValues)
    {
      var r := CopyArrayTo(intValues, dest.intValues, 0);
      dest.intValues := r;
    }

    /** The `floatValues` section of `CopyValuesTo`. */
    method CopyFloatValuesTo(dest: AttributeRecord)
      modifies dest`floatValues, dest.floatValues
      ensures dest.Snapshot() == old(dest.Snapshot()).(floatValues := old(Snapshot()).floatValues)
      ensures Snapshot() == old(Snapshot()) && floatValues == old(floatValues)
      ensures ResizedFrom(old(floatValues), old(dest.floatValues), dest.floatValues)
    {
      var r := CopyArrayTo(floatValues, dest.floatValues, Float32(0));
      dest.floatValues := r;
    }

    /** The `stringValues` section of `CopyValuesTo`. */
    method CopyStringValuesTo(dest: AttributeRecord)
      modifies dest`stringValues, dest.stringValues
      ensures dest.Snapshot() == old(dest.Snapshot()).(stringValues := old(Snapshot()).stringValues)
      ensures Snapshot() == old(Snapshot()) && stringValues == old(stringValues)
      ensures ResizedFrom(old(stringValues), old(dest.stringValues), dest.stringValues)
    {
      var r := CopyArrayTo(stringValues, dest.stringValues, None);
      dest.stringValues := r;
    }
  }
}
