/**
 * The store hierarchy of include/ringmesh/basic/attributes.h (lines 59-312):
 * `Store`, `TypedStore<T>`, `VectorStore<T>` and `ConstantStore<T>`. The two
 * concrete stores are one class here, told apart by `kind`; each operation
 * does what the variant it stands for does, and is proved against the
 * snapshot functions of module StoreModel.
 */
module Stores {
  import opened Types
  import opened StoreModel

  class Store<T(0)> {
    /** `VectorKind` for a `VectorStore<T>`, `ConstantKind` for a `ConstantStore<T>`. */
    const kind: StoreKind
    /** `typeid( T ).name()`, as an opaque tag. */
    const typeId: string
    /** `element_size_`: `sizeof( T )`. */
    const elementSize: Index
    /** The value-initialised `T()`. */
    const zero: T
    /** `size_`. */
    var size: Index
    /** `vector_` of a vector store; `[ constant_ ]` of a constant store. */
    var items: seq<T>

    ghost function View(): StoreView<T>
      reads this
    {
      StoreView(kind, typeId, elementSize, zero, size, items)
    }

    ghost predicate Valid()
      reads this
    {
      View().Valid()
    }

    /** `VectorStore<T>()`: an empty vector store (attributes.h:145-147, 167). */
    constructor Vector(typeId: string, elementSize: Index, zero: T)
      ensures Valid() && View() == StoreView(VectorKind, typeId, elementSize, zero, 0, [])
    {
      this.kind := VectorKind;
      this.typeId := typeId;
      this.elementSize := elementSize;
      this.zero := zero;
      this.size := 0;
      this.items := [];
    }

    /**
     * `ConstantStore<T>()` (attributes.h:245-248): size 1, holding a
     * default-constructed (unspecified) `constant_`.
     */
    constructor Constant(typeId: string, elementSize: Index, zero: T)
      ensures Valid() && kind == ConstantKind && this.typeId == typeId && this.elementSize == elementSize
      ensures this.zero == zero && size == 1 && |items| == 1
    {
      var c: T := *;
      this.kind := ConstantKind;
      this.typeId := typeId;
      this.elementSize := elementSize;
      this.zero := zero;
      this.size := 1;
      this.items := [c];
    }

    /** `elements_type_matches( type_name )` (attributes.h:149-152). */
    function ElementsTypeMatches(typeName: string): (r: bool)
      reads this
      ensures r <==> typeName == typeId
    {
      typeName == typeId
    }

    /**
     * `resize( new_size )`. A vector store sets `size_` and resizes `vector_`
     * (attributes.h:169-173); a constant store only warns (250-253).
     */
    method Resize(newSize: Index)
      modifies this
      ensures View() == Resized(old(View()), newSize)
      ensures kind == VectorKind ==> Valid()
    {
      if kind == VectorKind {
        size := newSize;
        if newSize <= |items| {
          items := items[..newSize];
        } else {
          items := items + seq(newSize - |items|, _ => zero);
        }
      }
    }

    /**
     * `clear()`: a vector store drops all its items, a constant store does
     * nothing (attributes.h:264-266). The source's `VectorStore::clear`
     * (185-188) forgets to reset `size_`; this is the intended behaviour, reached
     * from `AttributeStore::clear`, whose documentation says "Resizes this
     * AttributeStore to 0" (371-373). ClearAsWritten is the code as written.
     */
    method Clear()
      modifies this
      ensures View() == Cleared(old(View()))
    {
      if kind == VectorKind {
        items := [];
        size := 0;
      }
    }

    /** `VectorStore::clear` exactly as written (attributes.h:185-188). */
    method ClearAsWritten()
      modifies this
      ensures View() == ClearedAsWritten(old(View()))
    {
      if kind == VectorKind {
        items := [];
      }
    }

    /**
     * `compress( old2new )`. The vector store's body in the source is an empty
     * stub (attributes.h:198-201); this is the documented single-pass in-place
     * rewrite (379-417), followed by a resize to the compressed size. A constant
     * store does nothing (274-277).
     */
    method Compress(old2new: seq<Index>)
      requires Valid()
      requires kind == VectorKind ==> |old2new| == size && IsCompressMap(old2new)
      modifies this
      ensures Valid()
      ensures View() == CompressedView(old(View()), old2new)
    {
      if kind == VectorKind {
        ghost var data := items;
        var newSize: nat := 0;
        var i := 0;
        while i < |old2new|
          invariant 0 <= i <= |old2new| && |items| == |data|
          invariant items == CompressPrefix(data, old2new, i)
          invariant newSize == CompressedSizeAfter(old2new, i)
        {
          var j := old2new[i];
          if j != NO_ID {
            if j != i {
              items := items[j := items[i]];
            }
            if newSize <= j {
              newSize := j + 1;
            }
          }
          i := i + 1;
        }
        size := newSize as Index;
        items := items[..newSize];
      }
    }

    /**
     * `VectorStore::compress` exactly as written (attributes.h:198-201): the
     * body returns at once, so the store keeps its size and items.
     */
    method CompressAsWritten(old2new: seq<Index>)
      ensures View() == old(View())
    {
    }

    /**
     * `apply_permutation( perm )`. The vector store's body in the source is an
     * empty stub (attributes.h:219-223); this is the documented equivalent
     * (202-212): item `i` becomes the old item `perm[i]`. `perm` is passed by
     * value, so it is unchanged on exit. A constant store does nothing (295-299).
     */
    method ApplyPermutation(perm: seq<Index>)
      requires Valid()
      requires kind == VectorKind ==> IsPermutation(perm, size)
      modifies this
      ensures Valid()
      ensures View() == PermutedView(old(View()), perm)
    {
      if kind == VectorKind {
        var permuted: seq<T> := [];
        var i := 0;
        while i < |perm|
          invariant 0 <= i <= |perm| && |permuted| == i
          invariant forall k :: 0 <= k < i ==> permuted[k] == items[perm[k]]
        {
          permuted := permuted + [items[perm[i]]];
          i := i + 1;
        }
        items := permuted;
      }
    }

    /**
     * `copy_item( to, from )`. The vector store's body in the source is an empty
     * stub (attributes.h:229-232); this is the documented copy of item `from`
     * onto item `to` (109-114). A constant store does nothing (305-308).
     */
    method CopyItem(to: Index, from: Index)
      requires Valid()
      requires kind == VectorKind ==> to < size && from < size
      modifies this
      ensures Valid()
      ensures View() == CopiedItemView(old(View()), to, from)
    {
      if kind == VectorKind {
        items := items[to := items[from]];
      }
    }

    /**
     * `clone()`: a new store of the same kind, size and contents
     * (attributes.h:190-196 deep-copies `vector_`; 268-273 copies `constant_`).
     */
    method Clone() returns (c: Store<T>)
      requires Valid()
      ensures fresh(c) && c.Valid()
      ensures c.View() == View()
    {
      if kind == VectorKind {
        c := new Store<T>.Vector(typeId, elementSize, zero);
        c.Resize(size);
        c.items := items;
      } else {
        c := new Store<T>.Constant(typeId, elementSize, zero);
        c.items := items;
      }
    }

    /**
     * A write through `data()`: the typed facades store `value` as item `i`
     * (attributes.h:985, 1127 and the `constant_` of a constant store).
     */
    method SetItem(i: nat, value: T)
      requires i < |items|
      modifies this
      ensures size == old(size) && items == old(items)[i := value]
      ensures old(Valid()) ==> Valid()
    {
      items := items[i := value];
    }
  }

  /**
   * The as-written `VectorStore::clear` on a store of three items: the store
   * still reports three items while holding none.
   */
  method ClearAsWrittenExample() returns (reportedSize: Index, heldItems: nat)
    ensures reportedSize == 3 && heldItems == 0
  {
    var s := new Store<int>.Vector("i", 4, 0);
    s.Resize(3);
    s.ClearAsWritten();
    reportedSize, heldItems := s.size, |s.items|;
  }

  /**
   * The as-written `VectorStore::compress` on a store of two items with the
   * map `[ 0, NO_ID ]`, which keeps one item: the store still holds two items
   * where the compressed size is one, so a manager that sets `nb_items()` to
   * the compressed size (attributes.h:716-731) no longer agrees with it.
   */
  method CompressAsWrittenExample() returns (heldItems: nat, compressedSize: nat)
    ensures heldItems == 2 && compressedSize == 1
  {
    var s := new Store<int>.Vector("i", 4, 0);
    s.Resize(2);
    var old2new := [0, NO_ID];
    s.CompressAsWritten(old2new);
    heldItems := |s.items|;
    compressedSize := CompressedSize(old2new);
    assert old2new[0] == 0;
  }
}
