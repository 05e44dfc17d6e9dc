/**
 * The type registry of `AttributeStore` (include/ringmesh/basic/attributes.h,
 * lines 462-578): three maps from a C++ type name to the creator of stores of
 * that type, from a mangled type id (`typeid( T ).name()`) to the type name,
 * and from the type name to the mangled type id. The source keeps them in
 * static members; here they are the fields of one explicit registry object.
 */
module Registry {
  import opened Types

  /**
   * An `AttributeStoreCreator`: it builds empty stores of one element type,
   * given here by that type's mangled id and `sizeof`.
   */
  datatype AttributeStoreCreator = AttributeStoreCreator(elementTypeId: string, elementSize: Index)

  class TypeRegistry {
    /** `type_name_to_creator_`. */
    var typeNameToCreator: map<string, AttributeStoreCreator>
    /** `typeid_name_to_type_name_`. */
    var typeIdNameToTypeName: map<string, string>
    /** `type_name_to_typeid_name_`. */
    var typeNameToTypeIdName: map<string, string>

    /** The registry before any registration. */
    constructor ()
      ensures typeNameToCreator == map[] && typeIdNameToTypeName == map[] && typeNameToTypeIdName == map[]
      ensures Consistent()
    {
      typeNameToCreator := map[];
      typeIdNameToTypeName := map[];
      typeNameToTypeIdName := map[];
    }

    /**
     * The three maps agree: every type name has a creator of stores of its
     * mangled id and an id that is itself known, and every id leads back to a
     * name registered with that id. Several names may share an id (aliases).
     */
    ghost predicate Consistent()
      reads this
    {
      && typeNameToCreator.Keys == typeNameToTypeIdName.Keys
      && (forall n :: n in typeNameToTypeIdName ==>
            typeNameToTypeIdName[n] in typeIdNameToTypeName
            && typeNameToCreator[n].elementTypeId == typeNameToTypeIdName[n])
      && (forall id :: id in typeIdNameToTypeName ==>
            typeIdNameToTypeName[id] in typeNameToTypeIdName
            && typeNameToTypeIdName[typeIdNameToTypeName[id]] == id)
    }

    /** `element_type_name_is_known` (attributes.h:470-475). */
    function ElementTypeNameIsKnown(elementTypeName: string): (r: bool)
      reads this
      ensures r <==> elementTypeName in typeNameToCreator
    {
      elementTypeName in typeNameToCreator
    }

    /** `element_typeid_name_is_known` (attributes.h:485-490). */
    function ElementTypeIdNameIsKnown(elementTypeIdName: string): (r: bool)
      reads this
      ensures r <==> elementTypeIdName in typeIdNameToTypeName
    {
      elementTypeIdName in typeIdNameToTypeName
    }

    /**
     * `element_type_name_by_element_typeid_name` (attributes.h:512-518): the
     * type name registered for a known mangled id. In a consistent registry
     * that name is known and is registered with this very id.
     */
    function ElementTypeNameByElementTypeIdName(elementTypeIdName: string): (name: string)
      requires ElementTypeIdNameIsKnown(elementTypeIdName)
      reads this
      ensures Consistent() ==> ElementTypeNameIsKnown(name)
      ensures Consistent() ==> ElementTypeIdNameByElementTypeName(name) == elementTypeIdName
    {
      typeIdNameToTypeName[elementTypeIdName]
    }

    /**
     * `element_typeid_name_by_element_type_name` (attributes.h:528-533): the
     * mangled id registered for a known type name; in a consistent registry
     * that id is known and is the one its creator builds stores of. The
     * known-ness test and the lookup read two different maps; where they
     * disagree, `operator[]` yields the empty string.
     */
    function ElementTypeIdNameByElementTypeName(elementTypeName: string): (id: string)
      requires ElementTypeNameIsKnown(elementTypeName)
      reads this
      ensures elementTypeName in typeNameToTypeIdName ==> id == typeNameToTypeIdName[elementTypeName]
      ensures elementTypeName !in typeNameToTypeIdName ==> id == ""
      ensures Consistent() ==> ElementTypeIdNameIsKnown(id)
      ensures Consistent() ==> id == typeNameToCreator[elementTypeName].elementTypeId
    {
      if elementTypeName in typeNameToTypeIdName then typeNameToTypeIdName[elementTypeName] else ""
    }

    /**
     * `register_attribute_creator` with the same-type check that the
     * assertion `already_registered_attribute_has_same_type`
     * (attributes.h:555-559) intends: re-registering a known name under
     * another mangled id is refused whether or not that id is known. It records the three mappings, and
     * keeps the registry consistent when the creator builds stores of `id`
     * (as the registering helper named at attributes.h:537-538 guarantees).
     */
    method RegisterAttributeCreator(creator: AttributeStoreCreator, elementTypeName: string, elementTypeIdName: string)
      requires ElementTypeNameIsKnown(elementTypeName) ==>
                 ElementTypeIdNameByElementTypeName(elementTypeName) == elementTypeIdName
      modifies this
      ensures typeNameToCreator == old(typeNameToCreator)[elementTypeName := creator]
      ensures typeIdNameToTypeName == old(typeIdNameToTypeName)[elementTypeIdName := elementTypeName]
      ensures typeNameToTypeIdName == old(typeNameToTypeIdName)[elementTypeName := elementTypeIdName]
      ensures old(Consistent()) && creator.elementTypeId == elementTypeIdName ==> Consistent()
    {
      typeNameToCreator := typeNameToCreator[elementTypeName := creator];
      typeIdNameToTypeName := typeIdNameToTypeName[elementTypeIdName := elementTypeName];
      typeNameToTypeIdName := typeNameToTypeIdName[elementTypeName := elementTypeIdName];
    }

    /**
     * `register_attribute_creator` as written (attributes.h:545-568): the
     * same-type assertion is checked only when the incoming mangled id is
     * already known; otherwise a known name is re-pointed to a new id with only
     * the "already registered" warning (551-552), which is not modelled.
     */
    method RegisterAttributeCreatorAsWritten(creator: AttributeStoreCreator, elementTypeName: string, elementTypeIdName: string)
      requires ElementTypeNameIsKnown(elementTypeName) && ElementTypeIdNameIsKnown(elementTypeIdName) ==>
                 ElementTypeIdNameByElementTypeName(elementTypeName) == elementTypeIdName
      modifies this
      ensures typeNameToCreator == old(typeNameToCreator)[elementTypeName := creator]
      ensures typeIdNameToTypeName == old(typeIdNameToTypeName)[elementTypeIdName := elementTypeName]
      ensures typeNameToTypeIdName == old(typeNameToTypeIdName)[elementTypeName := elementTypeIdName]
    {
      if ElementTypeNameIsKnown(elementTypeName) {
        // The "already registered" warning (551-552) is not modelled.
        if ElementTypeIdNameIsKnown(elementTypeIdName) {
          assert ElementTypeIdNameByElementTypeName(elementTypeName) == elementTypeIdName;
        }
      }
      typeNameToCreator := typeNameToCreator[elementTypeName := creator];
      typeIdNameToTypeName := typeIdNameToTypeName[elementTypeIdName := elementTypeName];
      typeNameToTypeIdName := typeNameToTypeIdName[elementTypeName := elementTypeIdName];
    }
  }

  /**
   * After registering a type, both queries know it and the two lookups map
   * name and id to each other (true of both versions of registration).
   */
  method RegisterRoundTrip(registry: TypeRegistry, creator: AttributeStoreCreator, name: string, id: string)
    requires registry.Consistent() && creator.elementTypeId == id
    requires registry.ElementTypeNameIsKnown(name) ==> registry.ElementTypeIdNameByElementTypeName(name) == id
    modifies registry
    ensures registry.Consistent()
    ensures registry.ElementTypeNameIsKnown(name) && registry.ElementTypeIdNameIsKnown(id)
    ensures registry.ElementTypeIdNameByElementTypeName(name) == id
    ensures registry.ElementTypeNameByElementTypeIdName(id) == name
  {
    registry.RegisterAttributeCreator(creator, name, id);
  }

  /**
   * The as-written registration leaves the registry inconsistent: after
   * registering "double" as "d" and then as "x", the id "d" still leads to
   * "double", whose id is now "x".
   */
  method RegisterAsWrittenExample() returns (nameOfD: string, idOfDouble: string, consistent: bool)
    ensures nameOfD == "double" && idOfDouble == "x" && !consistent
  {
    var registry := new TypeRegistry();
    registry.RegisterAttributeCreatorAsWritten(AttributeStoreCreator("d", 8), "double", "d");
    registry.RegisterAttributeCreatorAsWritten(AttributeStoreCreator("x", 8), "double", "x");
    nameOfD := registry.ElementTypeNameByElementTypeIdName("d");
    idOfDouble := registry.ElementTypeIdNameByElementTypeName("double");
    consistent := nameOfD in registry.typeNameToTypeIdName && registry.typeNameToTypeIdName[nameOfD] == "d";
  }
}
