/**
 * The GUID-carrying base classes SerializableScriptableObject.cs and
 * SerializableMonoBehaviour.cs. System.Guid.NewGuid is an oracle: each
 * method that may draw a GUID takes the one it would draw, which is never
 * empty. A null GUID field is modelled as "".
 */
module GuidAssets {
  /** What "assign a GUID if the current one is null or empty" leaves behind. */
  function AssignIfEmpty(current: string, drawn: string): (r: string)
    requires drawn != ""
    ensures r != ""
    ensures current != "" ==> r == current
    ensures current == "" ==> r == drawn
  {
    if current == "" then drawn else current
  }

  /** Assign-if-empty is idempotent: a second call keeps the GUID of the first, whatever it draws. */
  lemma AssignIfEmptyIdempotent(current: string, first: string, second: string)
    requires first != "" && second != ""
    ensures AssignIfEmpty(AssignIfEmpty(current, first), second) == AssignIfEmpty(current, first)
  {
  }

  class SerializableScriptableObject {
    var guid: string

    constructor (guid: string)
      ensures this.guid == guid
    {
      this.guid := guid;
    }

    /** AssignGuid always replaces the GUID with a fresh one. */
    method AssignGuid(drawn: string)
      requires drawn != ""
      modifies this
      ensures guid == drawn
    {
      guid := drawn;
    }

    /** OnValidaete: a GUID is assigned only when there is none. */
    method OnValidaete(drawn: string)
      requires drawn != ""
      modifies this
      ensures guid == AssignIfEmpty(old(guid), drawn)
    {
      if guid == "" {
        AssignGuid(drawn);
      }
    }

    /** Reset behaves as OnValidaete. */
    method Reset(drawn: string)
      requires drawn != ""
      modifies this
      ensures guid == AssignIfEmpty(old(guid), drawn)
    {
      if guid == "" {
        AssignGuid(drawn);
      }
    }
  }

  class SerializableMonoBehaviour {
    var guid: string

    constructor (guid: string)
      ensures this.guid == guid
    {
      this.guid := guid;
    }

    /** AssignGuid always installs a fresh GUID. */
    method AssignGuid(drawn: string)
      requires drawn != ""
      modifies this
      ensures guid == drawn
    {
      guid := drawn;
    }

    /** OnValidate leaves a non-empty GUID alone and fills an empty one. */
    method OnValidate(drawn: string)
      requires drawn != ""
      modifies this
      ensures guid == AssignIfEmpty(old(guid), drawn)
    {
      if guid == "" {
        AssignGuid(drawn);
      }
    }

    /** Reset behaves as OnValidate. */
    method Reset(drawn: string)
      requires drawn != ""
      modifies this
      ensures guid == AssignIfEmpty(old(guid), drawn)
    {
      if guid == "" {
        AssignGuid(drawn);
      }
    }
  }
}
