/**
 * The editor tools read types by reflection: each type's BaseType chain,
 * whether it is abstract, its namespace, and for a generic type its
 * definition and arguments. Here a type is an id, and a table gives that
 * information for each one.
 */
module EditorTypes {
  import opened Wrappers

  type TypeId = nat
  type ObjId = nat

  /** typeof(object), the end of every BaseType chain. */
  const ObjectType: TypeId := 0
  /** typeof(ScriptableObject). */
  const ScriptableObjectType: TypeId := 1

  /**
   * What reflection tells about a type. `bases` is the BaseType chain,
   * nearest first; `genericDefinition` is GetGenericTypeDefinition of a
   * constructed generic type, with `genericArguments` its arguments.
   */
  datatype TypeInfo = TypeInfo(
    bases: seq<TypeId>,
    isAbstract: bool,
    ns: Option<string>,
    isGenericDefinition: bool,
    genericDefinition: Option<TypeId>,
    genericArguments: seq<TypeId>)

  type TypeTable = map<TypeId, TypeInfo>

  /** A ScriptableObject asset: its object, runtime type and name. */
  datatype Asset = Asset(id: ObjId, typ: TypeId, name: string)

  /** The BaseType chain of `t`; a type the table does not describe has none. */
  function Bases(types: TypeTable, t: TypeId): seq<TypeId>
  {
    if t in types then types[t].bases else []
  }

  /** Type.IsAssignableFrom for classes: the same type or one on the BaseType chain. */
  predicate Assignable(types: TypeTable, to: TypeId, from: TypeId)
  {
    to == from || to in Bases(types, from)
  }

  /** `Namespace ?? "Empty"`. */
  function NamespaceOf(types: TypeTable, t: TypeId): string
  {
    if t in types && types[t].ns.Some? then types[t].ns.value else "Empty"
  }

  predicate IsAbstract(types: TypeTable, t: TypeId)
  {
    t in types && types[t].isAbstract
  }
}
