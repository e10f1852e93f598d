/**
 * ValueReference<TValue, TAsset> and ActionReference<TValue>
 * (ValueReference.cs): a field that holds either a local value or a
 * reference to an ActionSO<TValue> asset, switched by `useValue`.
 * Reading it in reference mode reads the asset's StoredValue; writing it
 * there goes through the StoredValue setter, which raises the asset.
 */
module ValueReferences {
  import opened Wrappers
  import opened Subscribers
  import opened EventChannels

  class ValueReference<T> {
    var useValue: bool
    /** _value, the local value. */
    var value: T
    var assetReference: ActionSO?<T>
    var editAsset: bool
    /** _assetReference, the inspector's mirror of assetReference. */
    var mirror: ActionSO?<T>

    /**
     * The constructor of both classes: the type's default value, no asset,
     * value mode.
     */
    constructor (defaultValue: T)
      ensures useValue && value == defaultValue && assetReference == null
      ensures !editAsset && mirror == null
    {
      useValue := true;
      value := defaultValue;
      assetReference := null;
      editAsset := false;
      mirror := null;
    }

    /**
     * The Value getter, which the implicit conversion also returns: the
     * local value in value mode or when no asset is set, and otherwise the
     * asset's stored value.
     */
    function Value(): (v: T)
      reads this, assetReference
      ensures useValue || assetReference == null ==> v == value
      ensures !useValue && assetReference != null ==> v == assetReference.StoredValue()
    {
      if useValue || assetReference == null then value else assetReference.storedValue
    }

    /**
     * The Value setter. In value mode it writes the local value; otherwise
     * it raises the asset with the value, which stores it there, and a
     * missing asset throws. Whatever it stored, Value reads it back.
     */
    method SetValue(v: T) returns (threw: bool)
      modifies this, assetReference
      ensures threw <==> !useValue && assetReference == null
      ensures !threw ==> Value() == v
      ensures useValue == old(useValue) && assetReference == old(assetReference)
      ensures editAsset == old(editAsset) && mirror == old(mirror)
      ensures useValue ==> value == v
      ensures !useValue ==> value == old(value)
      ensures !useValue && assetReference != null ==>
                Lists(assetReference.baseSubscribers, assetReference.messageSubscribers, false)
                == old(RemoveNulls(assetReference.baseSubscribers, assetReference.messageSubscribers, ActionFamily))
                && assetReference.calls
                   == old(assetReference.calls + RaiseCalls(assetReference.baseSubscribers, assetReference.messageSubscribers, ActionFamily, v))
    {
      if useValue {
        value := v;
        return false;
      }
      if assetReference == null {
        return true;
      }
      assetReference.Raise(v);
      threw := false;
    }

    /** UpdateAsset: the mirror follows assetReference. */
    method UpdateAsset()
      modifies this
      ensures mirror == assetReference
      ensures useValue == old(useValue) && value == old(value) && assetReference == old(assetReference)
      ensures editAsset == old(editAsset)
    {
      mirror := assetReference;
    }

    /** SetAsset: a new asset, with the mode left as it was. */
    method SetAsset(asset: ActionSO?<T>)
      modifies this
      ensures assetReference == asset
      ensures useValue == old(useValue) && value == old(value)
      ensures editAsset == old(editAsset) && mirror == old(mirror)
      ensures useValue ==> Value() == old(Value())
    {
      assetReference := asset;
    }
  }
}
