/**
 * Uses of the attribute handles on concrete managers, as client code of
 * include/ringmesh/basic/attributes.h writes them.
 */
module Scenarios {
  import opened Types
  import opened StoreModel
  import opened AttributeStores
  import opened Manager
  import opened Attributes
  import opened ScalarAdapters

  /** A manager of three items with an `int` attribute "weight" bound to `a`. */
  method WeightedManager() returns (m: AttributesManager<int>, a: Attribute<int>)
    ensures fresh(m) && fresh(a) && a.BoundIn(m) && a.Size() == 3 && "weight" in m.attributes
    ensures a.store == m.attributes["weight"] && a.typeId == "i" && fresh(a.store.store) && a.store.store.typeId == "i"
  {
    m := new AttributesManager<int>();
    m.Resize(3);
    a := new Attribute<int>("i", 4, 0);
    a.Bind(m, "weight");
    m.BoundView(a.store);
  }

  /**
   * Two handles bound to the same name share one store: a value written
   * through the first is read through the second.
   */
  method SharedStore() returns (size: nat, seen: int)
    ensures size == 3 && seen == 7
  {
    var m, a := WeightedManager();
    a.SetValue(1, 7);
    var b := new Attribute<int>("i", 4, 0);
    b.Bind(m, "weight");
    size := b.Size();
    seen := b.Value(1);
  }

  /** Unbinding keeps the store in the manager; destroying removes it. */
  method UnbindThenDestroy() returns (keptAfterUnbind: bool, keptAfterDestroy: bool)
    ensures keptAfterUnbind && !keptAfterDestroy
  {
    var m, a := WeightedManager();
    a.Unbind();
    keptAfterUnbind := m.IsDefined("weight");
    a.Bind(m, "weight");
    a.Destroy();
    keptAfterDestroy := m.IsDefined("weight");
  }

  /** A constant attribute has one item, the constant. */
  method ConstantAttribute() returns (size: nat, constant: int)
    ensures size == 1 && constant == 9
  {
    var m, a := WeightedManager();
    a.SetConstantValue(9);
    m.BoundView(a.store);
    size := a.Size();
    constant := a.Value(0);
  }

  /** A boolean attribute of two items on a manager of bytes, bound to "flag". */
  method FlagManager() returns (m: AttributesManager<Byte>, f: BoolAttribute)
    ensures fresh(m) && fresh(f) && fresh(f.base) && f.base.BoundIn(m) && f.base.Size() == 2
    ensures fresh(f.base.store.store)
  {
    m := new AttributesManager<Byte>();
    m.Resize(2);
    f := new BoolAttribute("h");
    f.base.Bind(m, "flag");
    m.BoundView(f.base.store);
  }

  /**
   * A boolean item reads back what was written; a byte written through
   * `set_value( i, Byte )` is stored as 1 when it is not zero.
   */
  method BoolAttributeValues() returns (first: bool, second: bool, raw: Byte)
    ensures first && second && raw == 1
  {
    var m, f := FlagManager();
    f.SetValue(0, true);
    f.SetValueByte(1, 5);
    first := f.Value(0);
    second := f.Value(1);
    raw := f.base.Value(1);
  }

  /**
   * `create_vector_attribute` as written hands the manager an attribute
   * store that holds no store.
   */
  method CreateVectorAttributeAsWrittenExample() returns (hasStore: bool)
    ensures !hasStore
  {
    var m := new AttributesManager<int>();
    var a := new Attribute<int>("i", 4, 0);
    var handedOver := a.CreateVectorAttributeAsWritten(m, "normal", 3);
    hasStore := handedOver.store != null;
  }

  /** "weight" has no element index. */
  lemma WeightIsPlain()
    ensures '[' !in "weight" && AttributeBaseName("weight") == "weight" && AttributeElementIndex("weight") == 0
  {
  }

  /** An adapter on the plain name "weight" reads item `i` of it. */
  method AdapterReadsItem() returns (read: int)
    ensures read == 7
  {
    var m, a := WeightedManager();
    a.SetValue(1, 7);
    var plain := new ReadOnlyScalarAttributeAdapter(m, "weight");
    m.BoundView(a.store);
    WeightIsPlain();
    ScalarAdapterReadsItem(plain, "weight", 1);
    read := plain.GetElement(1, 1, Itself);
  }

  /** The three coordinates of a point: the scalars a `vec3` item is made of. */
  function Coordinates(p: (int, int, int)): (r: seq<int>)
    ensures |r| == 3 && r[0] == p.0 && r[1] == p.1 && r[2] == p.2
  {
    [p.0, p.1, p.2]
  }

  /**
   * An adapter on "pos[1]" over a two-item attribute of points reads
   * coordinate 1 of item 1 with `get_element( 1, 3 )`: slot 4 of the raw
   * buffer of six scalars, beyond the item count.
   */
  method AdapterReadsCoordinate() returns (read: int, slot: Index)
    ensures read == 8 && slot == 4
  {
    var m, a := PointManager();
    CompoundNameRoundTrip("pos", 1);
    assert CompoundName("pos", 1) == "pos[1]";
    var adapter := new ReadOnlyScalarAttributeAdapter(m, "pos[1]");
    ScalarAdapterReadsComponent(adapter, Coordinates, 3, 1);
    slot := ElementSlot(1, 3, adapter.elementIndex);
    read := adapter.GetElement(1, 3, Coordinates);
  }

  /** A manager of two items with an attribute "pos" of points, item 1 being (7, 8, 9). */
  method PointManager() returns (m: AttributesManager<(int, int, int)>, a: Attribute<(int, int, int)>)
    ensures a.BoundIn(m) && "pos" in m.attributes && a.store == m.attributes["pos"]
    ensures a.store.store.Valid() && a.Size() == 2 && a.Value(1) == (7, 8, 9)
  {
    m := new AttributesManager<(int, int, int)>();
    m.Resize(2);
    a := new Attribute<(int, int, int)>("vec3", 24, (0, 0, 0));
    a.Bind(m, "pos");
    m.BoundView(a.store);
    a.SetValue(1, (7, 8, 9));
    m.BoundView(a.store);
  }

  /**
   * An adapter on "weight[2]" selects element 2; on a name nothing is
   * bound to it is unbound and has no items.
   */
  method AdapterComponentAndMissing() returns (component: Index, bound: bool, size: nat)
    ensures component == 2 && !bound && size == 0
  {
    var m := new AttributesManager<int>();
    CompoundNameRoundTrip("weight", 2);
    assert CompoundName("weight", 2) == "weight[2]";
    var indexed := new ReadOnlyScalarAttributeAdapter(m, "weight[2]");
    component := indexed.ElementIndex();
    bound := indexed.IsBound();
    size := indexed.Size();
  }
}
