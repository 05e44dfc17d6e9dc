/**
 * The parts of `ReadOnlyScalarAttributeAdapter` (include/ringmesh/basic/
 * attributes.h, lines 1232-1420) that do not depend on converting elements to
 * `double`: the split of a compound name such as "foobar[5]" into a base
 * name and an element index, the raw slot `get_element` reads, and the
 * bound/unbound state of the adapter.
 */
module ScalarAdapters {
  import opened Types
  import opened StoreModel
  import opened Stores
  import opened AttributeStores
  import opened Manager

  // ------------------------------------------------------------ compound names

  /** The position of the first `c` in `s`, if there is one (`std::string::find`). */
  function FindFirst(s: string, c: char): (r: Option<nat>)
    ensures r.None? <==> c !in s
    ensures r.Some? ==> r.value < |s| && s[r.value] == c && c !in s[..r.value]
  {
    if |s| == 0 then None
    else if s[0] == c then Some(0)
    else match FindFirst(s[1..], c)
      case None => None
      case Some(p) => assert s[1..][..p] == s[1..p + 1]; Some(p + 1)
  }

  predicate IsDigit(ch: char) {
    '0' <= ch <= '9'
  }

  predicate AllDigits(s: string) {
    forall k :: 0 <= k < |s| ==> IsDigit(s[k])
  }

  /** The number a string of decimal digits denotes, most significant digit first. */
  function DigitsValue(s: string): nat
    requires AllDigits(s)
  {
    if |s| == 0 then 0 else DigitsValue(s[..|s| - 1]) * 10 + (s[|s| - 1] as int - '0' as int)
  }

  /** The decimal digits of `k`, without leading zeros. */
  function Decimal(k: nat): (s: string)
    ensures |s| > 0 && AllDigits(s)
  {
    if k < 10 then [('0' as int + k) as char] else Decimal(k / 10) + [('0' as int + k % 10) as char]
  }

  /** Reading back the digits of `k` gives `k`. */
  lemma {:induction false} DecimalRoundTrip(k: nat)
    ensures DigitsValue(Decimal(k)) == k
  {
    if k >= 10 {
      var s := Decimal(k);
      assert s[..|s| - 1] == Decimal(k / 10);
      DecimalRoundTrip(k / 10);
    }
  }

  /**
   * The element index a suffix "digits]" denotes. The header documents only
   * well-formed names (attributes.h:1382-1390); for any other suffix (no
   * final ']', a non-digit, no digit at all, a value of 2^32 or more) the
   * model chooses `NO_ID`, the value `unbind` gives an unselected element
   * index (1275).
   */
  function IndexSuffix(t: string): (r: Index)
    ensures r != NO_ID ==> |t| >= 2 && t[|t| - 1] == ']' && AllDigits(t[..|t| - 1]) && r == DigitsValue(t[..|t| - 1])
  {
    if |t| >= 2 && t[|t| - 1] == ']' && AllDigits(t[..|t| - 1]) && DigitsValue(t[..|t| - 1]) < INDEX_LIMIT
    then DigitsValue(t[..|t| - 1])
    else NO_ID
  }

  /**
   * `attribute_base_name( name )` (1372-1380): `name` up to its first '[',
   * or all of it when there is none; "foobar[5]" gives "foobar".
   */
  function AttributeBaseName(name: string): (r: string)
    ensures |r| <= |name| && r == name[..|r|] && '[' !in r
    ensures |r| < |name| ==> name[|r|] == '['
    ensures '[' !in name ==> r == name
  {
    match FindFirst(name, '[')
    case None => name
    case Some(p) => name[..p]
  }

  /**
   * `attribute_element_index( name )` (1382-1390), declared without a body:
   * 0 when `name` has no '[', and the decimal number between its first '['
   * and a final ']' otherwise, as documented ("foobar[5]" gives 5). When
   * what follows the '[' is not such a number the documentation says
   * nothing; the model's choice is `NO_ID` (see IndexSuffix).
   */
  function AttributeElementIndex(name: string): (r: Index)
    ensures '[' !in name ==> r == 0
  {
    match FindFirst(name, '[')
    case None => 0
    case Some(p) => IndexSuffix(name[p + 1..])
  }

  /** The compound name of component `k` of the attribute `base`: "base[k]". */
  function CompoundName(base: string, k: nat): string {
    base + "[" + Decimal(k) + "]"
  }

  /** The first '[' of `base + "[" + rest` is the one after `base` when `base` has none. */
  lemma FirstBracket(base: string, rest: string)
    requires '[' !in base
    ensures FindFirst(base + "[" + rest, '[') == Some(|base|)
    ensures AttributeBaseName(base + "[" + rest) == base
    ensures AttributeElementIndex(base + "[" + rest) == IndexSuffix(rest)
  {
    var name := base + "[" + rest;
    var p := FindFirst(name, '[');
    assert name[|base|] == '[';
    forall j | 0 <= j < |base|
      ensures name[j] != '['
    {
      assert name[j] == base[j];
    }
    forall j | 0 <= j < p.value
      ensures name[j] != '['
    {
      assert name[..p.value][j] == name[j];
    }
    assert name[..|base|] == base;
    assert name[|base| + 1..] == rest;
  }

  /**
   * Splitting the compound name "base[k]" gives back `base` and `k`, for
   * any base name without a '[' and any `index_t` value `k`.
   */
  lemma CompoundNameRoundTrip(base: string, k: Index)
    requires '[' !in base
    ensures AttributeBaseName(CompoundName(base, k)) == base
    ensures AttributeElementIndex(CompoundName(base, k)) == k
  {
    var t := Decimal(k) + "]";
    assert CompoundName(base, k) == base + "[" + t;
    FirstBracket(base, t);
    assert t[..|t| - 1] == Decimal(k);
    DecimalRoundTrip(k);
  }

  /**
   * An element index other than `NO_ID` read from a name with a '[' comes
   * from a suffix "digits]" right after the base name.
   */
  lemma ElementIndexFromSuffix(name: string)
    requires '[' in name && AttributeElementIndex(name) != NO_ID
    ensures var b := |AttributeBaseName(name)|;
      && name[b] == '[' && |name| >= b + 3 && name[|name| - 1] == ']'
      && AllDigits(name[b + 1..|name| - 1])
      && AttributeElementIndex(name) == DigitsValue(name[b + 1..|name| - 1])
  {
    var p := FindFirst(name, '[').value;
    var t := name[p + 1..];
    assert t[..|t| - 1] == name[p + 1..|name| - 1];
  }

  /** The examples of the documentation: "foobar[5]" and "foobar". */
  lemma DocumentedExamples()
    ensures AttributeBaseName("foobar[5]") == "foobar" && AttributeElementIndex("foobar[5]") == 5
    ensures AttributeBaseName("foobar") == "foobar" && AttributeElementIndex("foobar") == 0
  {
    CompoundNameRoundTrip("foobar", 5);
    assert CompoundName("foobar", 5) == "foobar[5]";
  }

  /**
   * The model's choice for malformed names, which the documentation
   * (1382-1390) leaves open: a '[' that is not followed by a number and a
   * final ']' gives `NO_ID`; the base name is still the part before the '['.
   */
  lemma MalformedIndex()
    ensures AttributeBaseName("foobar[x]") == "foobar" && AttributeElementIndex("foobar[x]") == NO_ID
    ensures AttributeElementIndex("foobar[]") == NO_ID
  {
    assert "foobar[x]" == "foobar" + "[" + "x]";
    FirstBracket("foobar", "x]");
    var t := "x]";
    assert !IsDigit(t[..|t| - 1][0]);
    assert "foobar[]" == "foobar" + "[" + "]";
    FirstBracket("foobar", "]");
  }

  // ---------------------------------------------------------------- get_element

  /**
   * The raw slot `get_element( i, multiplier )` reads (1407-1414):
   * `( i * multiplier ) + element_index_`, in `index_t` arithmetic, which
   * wraps around at 2^32.
   */
  function ElementSlot(i: Index, multiplier: Index, elementIndex: Index): (r: Index)
    ensures i * multiplier + elementIndex < INDEX_LIMIT ==> r == i * multiplier + elementIndex
  {
    AddIndex(MulIndex(i, multiplier), elementIndex)
  }

  /**
   * Component `e` of item `i` of an attribute with `d` components per item
   * is slot `i * d + e`: the slots of distinct (item, component) pairs are
   * distinct as long as they are below 2^32.
   */
  lemma ElementSlotsDistinct(i: Index, j: Index, d: Index, e: Index, f: Index)
    requires e < d && f < d && (i != j || e != f)
    requires i * d + e < INDEX_LIMIT && j * d + f < INDEX_LIMIT
    ensures ElementSlot(i, d, e) != ElementSlot(j, d, f)
  {
    var x, y := i * d, j * d;
    if i < j {
      MulStep(i, j, d);
      assert x + e < y + f;
    } else if j < i {
      MulStep(j, i, d);
      assert y + f < x + e;
    }
  }

  /** `a * d + d <= b * d` when `a < b`. */
  lemma MulStep(a: nat, b: nat, d: nat)
    requires a < b
    ensures a * d + d <= b * d
  {
    var k := b - a - 1;
    assert b * d == a * d + d + k * d;
  }

  /**
   * The buffer `data()` points to, read as scalars of type `S` through
   * `reinterpret_cast< const S* >`: the scalars each item is made of, item
   * after item. `components` gives the scalars of one item: one for a scalar
   * element type, three for a `vec3`, and so on.
   */
  function Scalars<T, S>(items: seq<T>, components: T -> seq<S>): seq<S> {
    if |items| == 0 then [] else Scalars(items[..|items| - 1], components) + components(items[|items| - 1])
  }

  /** Every item is made of `d` scalars. */
  predicate UniformComponents<T, S>(items: seq<T>, components: T -> seq<S>, d: nat) {
    forall k :: 0 <= k < |items| ==> |components(items[k])| == d
  }

  /** `n` items of `d` scalars each make `n * d` scalars. */
  lemma {:induction false} ScalarsLength<T, S>(items: seq<T>, components: T -> seq<S>, d: nat)
    requires UniformComponents(items, components, d)
    ensures |Scalars(items, components)| == |items| * d
  {
    if |items| > 0 {
      var n := |items|;
      ScalarsLength(items[..n - 1], components, d);
      assert n * d == (n - 1) * d + d;
    }
  }

  /** Scalar `e` of item `i` sits at `i * d + e` in the buffer. */
  lemma {:induction false} ScalarSlot<T, S>(items: seq<T>, components: T -> seq<S>, d: nat, i: nat, e: nat)
    requires UniformComponents(items, components, d) && i < |items| && e < d
    ensures i * d + e < |Scalars(items, components)|
    ensures Scalars(items, components)[i * d + e] == components(items[i])[e]
  {
    var n := |items|;
    var init := items[..n - 1];
    ScalarsLength(items, components, d);
    ScalarsLength(init, components, d);
    if i < n - 1 {
      MulStep(i, n - 1, d);
      ScalarSlot(init, components, d, i, e);
      assert init[i] == items[i];
    } else {
      assert i * d + e == |Scalars(init, components)| + e;
    }
  }

  /**
   * With `d` scalars per item and an element index below `d`, the slot
   * `get_element( i, d )` reads lies in the buffer for every item `i`, also
   * when `i * d + e` wraps around at 2^32; without wrap-around it is scalar
   * `e` of item `i`.
   */
  lemma ElementSlotInBuffer<T, S>(items: seq<T>, components: T -> seq<S>, d: Index, i: Index, e: Index)
    requires UniformComponents(items, components, d) && i < |items| && e < d
    ensures ElementSlot(i, d, e) < |Scalars(items, components)|
    ensures i * d + e < INDEX_LIMIT ==> Scalars(items, components)[ElementSlot(i, d, e)] == components(items[i])[e]
  {
    ScalarSlot(items, components, d, i, e);
  }

  /**
   * A `ReadOnlyScalarAttributeAdapter` over the items of one attribute
   * store of a manager; `get_element` reads the scalars they are made of.
   */
  class ReadOnlyScalarAttributeAdapter<T(0)> {
    /** `manager_`, `store_` and `element_index_` (1417-1419). */
    var manager: AttributesManager?<T>
    var store: AttributeStore?<T>
    var elementIndex: Index

    /**
     * `ReadOnlyScalarAttributeAdapter( manager, name )` (1249-1254): null
     * pointers, then `bind_if_is_defined( manager, name )`.
     */
    constructor (m: AttributesManager<T>, name: string)
      requires m.Valid()
      ensures IsBound() <==> AttributeBaseName(name) in m.attributes
      ensures manager == m && elementIndex == AttributeElementIndex(name)
      ensures IsBound() ==> store == m.attributes[AttributeBaseName(name)]
    {
      manager := m;
      store := m.FindAttributeStore(AttributeBaseName(name));
      elementIndex := AttributeElementIndex(name);
    }

    /** `is_bound()` (1261-1264). */
    predicate IsBound()
      reads this
    {
      store != null
    }

    /**
     * `bind_if_is_defined( manager, name )` (1278-1288): the adapter is
     * bound to the store of the base name of `name` when there is one, and
     * selects the element index the name gives.
     */
    method BindIfIsDefined(m: AttributesManager<T>, name: string)
      requires !IsBound() && m.Valid()
      modifies this
      ensures IsBound() <==> AttributeBaseName(name) in m.attributes
      ensures manager == m && elementIndex == AttributeElementIndex(name)
      ensures IsBound() ==> store == m.attributes[AttributeBaseName(name)]
    {
      manager := m;
      store := m.FindAttributeStore(AttributeBaseName(name));
      elementIndex := AttributeElementIndex(name);
    }

    /** `unbind()` (1270-1276): the adapter is unbound and its element index is `index_t( -1 )`. */
    method Unbind()
      requires IsBound()
      modifies this
      ensures manager == null && store == null && elementIndex == NO_ID && Size() == 0
    {
      manager, store, elementIndex := null, null, NO_ID;
    }

    /** `size()` (1321-1324): the number of items of the bound store, and 0 when unbound. */
    function Size(): (r: Index)
      requires store != null ==> store.store != null
      reads this, if store != null then {store, store.store} else {}
      ensures store == null ==> r == 0
      ensures store != null ==> r == store.store.size
    {
      if store == null then 0 else store.store.size
    }

    /** `element_index()` (1338-1341). */
    function ElementIndex(): Index
      reads this
    {
      elementIndex
    }

    /** `attribute_store()` (1347-1350). */
    function AttributeStore(): AttributeStore?<T>
      reads this
    {
      store
    }

    /** `is_defined( manager, name )` (1314-1315): the base name of `name` is bound in `m`. */
    static function IsDefined(m: AttributesManager<T>, name: string): (r: bool)
      reads m
      ensures r <==> AttributeBaseName(name) in m.attributes
    {
      m.IsDefined(AttributeBaseName(name))
    }

    /**
     * `get_element< S >( i, multiplier )` (1407-1414): the bound adapter,
     * given an item `i < size()`, reads the raw scalar `( i * multiplier ) +
     * element_index_` of the store's buffer, in `index_t` arithmetic. That
     * scalar must exist in the buffer. When every item is made of
     * `multiplier` scalars and the element index is below it, it is
     * component `element_index_` of item `i`.
     */
    function GetElement<S>(i: Index, multiplier: Index, components: T -> seq<S>): (r: S)
      requires IsBound() && store.store != null && store.store.Valid() && i < Size()
      requires ElementSlot(i, multiplier, elementIndex) < |Scalars(store.store.items, components)|
      reads this, store, store.store
      ensures UniformComponents(store.store.items, components, multiplier) && elementIndex < multiplier
              && i * multiplier + elementIndex < INDEX_LIMIT
              ==> r == components(store.store.items[i])[elementIndex]
    {
      var raw := Scalars(store.store.items, components);
      var slot := ElementSlot(i, multiplier, elementIndex);
      assert UniformComponents(store.store.items, components, multiplier) && elementIndex < multiplier
             && i * multiplier + elementIndex < INDEX_LIMIT
             ==> raw[slot] == components(store.store.items[i])[elementIndex] by {
        if UniformComponents(store.store.items, components, multiplier) && elementIndex < multiplier {
          ElementSlotInBuffer(store.store.items, components, multiplier, i, elementIndex);
        }
      }
      raw[slot]
    }
  }

  /** The scalars of an item of a scalar element type: the item itself. */
  function Itself<T>(x: T): (r: seq<T>)
    ensures |r| == 1 && r[0] == x
  {
    [x]
  }

  /**
   * An adapter bound to a scalar attribute by its plain name reads item `i`
   * itself: its element index is 0 and `get_element( i )` uses multiplier 1.
   */
  lemma ScalarAdapterReadsItem<T(0)>(a: ReadOnlyScalarAttributeAdapter<T>, name: string, i: Index)
    requires a.IsBound() && a.store.store != null && a.store.store.Valid() && i < a.Size()
    requires '[' !in name && a.elementIndex == AttributeElementIndex(name)
    ensures ElementSlot(i, 1, a.elementIndex) < |Scalars(a.store.store.items, Itself)|
    ensures a.GetElement(i, 1, Itself) == a.store.store.items[i]
  {
    ElementSlotInBuffer(a.store.store.items, Itself, 1, i, 0);
  }

  /**
   * An adapter bound to component `e` of a vector attribute with `d`
   * components per item (`get_element( i, d )` on "name[e]") reads scalar
   * `e` of item `i`, for every item, as long as `i * d + e` does not wrap.
   */
  lemma ScalarAdapterReadsComponent<T(0), S>(a: ReadOnlyScalarAttributeAdapter<T>, components: T -> seq<S>, d: Index, i: Index)
    requires a.IsBound() && a.store.store != null && a.store.store.Valid() && i < a.Size()
    requires UniformComponents(a.store.store.items, components, d) && a.elementIndex < d
    ensures ElementSlot(i, d, a.elementIndex) < |Scalars(a.store.store.items, components)|
    ensures i * d + a.elementIndex < INDEX_LIMIT ==> a.GetElement(i, d, components) == components(a.store.store.items[i])[a.elementIndex]
  {
    ElementSlotInBuffer(a.store.store.items, components, d, i, a.elementIndex);
  }
}
