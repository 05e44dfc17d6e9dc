/**
 * The value-level meaning of one attribute store (`Store`, `VectorStore<T>`,
 * `ConstantStore<T>` in include/ringmesh/basic/attributes.h): a snapshot of its
 * state, and the result that each structural operation must produce.  The
 * methods of class `Stores.Store` are proved against these definitions.
 */
module StoreModel {
  import opened Types

  /** Which concrete store the snapshot describes. */
  datatype StoreKind = VectorKind | ConstantKind

  /**
   * The state of one store. For a vector store `items` is `vector_`; for a
   * constant store it is the one-element sequence `[constant_]`. `typeId`
   * stands for `typeid( T ).name()`, `elementSize` for `sizeof( T )` and
   * `zero` for the value-initialised `T()` that `std::vector::resize` appends.
   */
  datatype StoreView<T> = StoreView(kind: StoreKind, typeId: string, elementSize: Index, zero: T, size: Index, items: seq<T>)
  {
    /**
     * `size()` is the number of logical items: the length of `vector_`, and
     * always 1 for a constant store.
     */
    predicate Valid() {
      if kind == ConstantKind then size == 1 && |items| == 1 else |items| == size
    }
  }

  /**
   * `resize( n )` of a store. A vector store gets `n` items (attributes.h:
   * 169-173): the first min(old size, n) are the old ones and the others the
   * value-initialised `T()`. A constant store is left as it was: the source
   * only logs a warning (250-253).
   */
  function Resized<T>(v: StoreView<T>, n: Index): (r: StoreView<T>)
    ensures v.Valid() ==> r.Valid()
    ensures r.kind == v.kind && r.typeId == v.typeId && r.elementSize == v.elementSize && r.zero == v.zero
    ensures v.kind == ConstantKind ==> r == v
    ensures v.kind == VectorKind ==> r.size == n && |r.items| == n
    ensures v.kind == VectorKind ==> forall k :: 0 <= k < Min(|v.items|, n) ==> r.items[k] == v.items[k]
    ensures v.kind == VectorKind ==> forall k :: |v.items| <= k < n ==> r.items[k] == v.zero
  {
    if v.kind == ConstantKind then v
    else if n <= |v.items| then v.(size := n, items := v.items[..n])
    else v.(size := n, items := v.items + seq(n - |v.items|, _ => v.zero))
  }

  /**
   * Resizing a store to the size it already has changes nothing: this is why
   * binding a store of `nb_items()` items keeps its contents.
   */
  lemma ResizeToOwnSizeKeepsStore<T>(v: StoreView<T>)
    requires v.Valid()
    ensures Resized(v, v.size) == v
  {
  }

  /**
   * Growing and then shrinking back loses nothing: a resize to `n` followed by
   * one to `m <= n` is a resize to `m`.
   */
  lemma ResizeThenShrink<T>(v: StoreView<T>, n: Index, m: Index)
    requires v.Valid() && m <= n
    ensures Resized(Resized(v, n), m) == Resized(v, m)
  {
    if v.kind == VectorKind {
      var r := Resized(Resized(v, n), m);
      var q := Resized(v, m);
      assert |r.items| == |q.items|;
      forall k | 0 <= k < m
        ensures r.items[k] == q.items[k]
      {
        if k >= |v.items| {
          assert Resized(v, n).items[k] == v.zero;
        }
      }
    }
  }

  /** `clear()`: a vector store drops to zero items; a constant store is unchanged. */
  function Cleared<T>(v: StoreView<T>): (r: StoreView<T>)
    ensures v.Valid() ==> r.Valid()
    ensures r.kind == v.kind && r.typeId == v.typeId && r.elementSize == v.elementSize
    ensures v.kind == VectorKind ==> r.size == 0 && r.items == []
    ensures v.kind == ConstantKind ==> r == v
  {
    if v.kind == ConstantKind then v else v.(size := 0, items := [])
  }

  /**
   * `VectorStore::clear` as written (attributes.h:185-188): it empties
   * `vector_` but leaves `size_` as it was.
   */
  function ClearedAsWritten<T>(v: StoreView<T>): (r: StoreView<T>)
    ensures v.kind == VectorKind ==> r.size == v.size && r.items == []
    ensures v.kind == ConstantKind ==> r == v
  {
    if v.kind == ConstantKind then v else v.(items := [])
  }

  /** After the as-written `clear`, a non-empty vector store reports items it no longer holds. */
  lemma ClearAsWrittenLosesItems<T>(v: StoreView<T>)
    requires v.Valid() && v.kind == VectorKind && v.size > 0
    ensures !ClearedAsWritten(v).Valid()
    ensures ClearedAsWritten(v).size == v.size && |ClearedAsWritten(v).items| == 0
  {
  }

  // ---------------------------------------------------------------- compress

  /**
   * The precondition of `compress( old2new )` (attributes.h:414): every item
   * that is kept moves to an index no larger than its own.
   */
  predicate IsCompressMap(old2new: seq<Index>) {
    forall i :: 0 <= i < |old2new| ==> old2new[i] == NO_ID || old2new[i] <= i
  }

  /**
   * One past the largest new index of the kept items among the first `i`
   * entries of `old2new` (0 when none of them is kept).
   */
  function CompressedSizeAfter(old2new: seq<Index>, i: nat): (n: nat)
    requires i <= |old2new|
    ensures forall k :: 0 <= k < i && old2new[k] != NO_ID ==> old2new[k] < n
    ensures n > 0 ==> exists k :: 0 <= k < i && old2new[k] == n - 1
    ensures IsCompressMap(old2new) ==> n <= i
  {
    if i == 0 then 0
    else
      var m := CompressedSizeAfter(old2new, i - 1);
      var j := old2new[i - 1];
      if j == NO_ID || j < m then m else j + 1
  }

  /**
   * Number of items after `compress`: one past the largest new index of a kept
   * item (0 when nothing is kept). For the maps the mesh kernel builds, which
   * number the kept items 0, 1, 2, ... in order, this is the number of kept
   * items (lemma CompactingSizeIsKeptCount).
   */
  function CompressedSize(old2new: seq<Index>): (n: nat)
    ensures forall i :: 0 <= i < |old2new| && old2new[i] != NO_ID ==> old2new[i] < n
    ensures n > 0 ==> exists i :: 0 <= i < |old2new| && old2new[i] == n - 1
    ensures IsCompressMap(old2new) ==> n <= |old2new|
  {
    CompressedSizeAfter(old2new, |old2new|)
  }

  /**
   * The buffer after the first `i` steps of the single in-place pass that
   * implements `compress`: step `k` copies the ORIGINAL item `k` to `old2new[k]`
   * when `k` is kept. The data at and after index `i` is still the original.
   */
  function CompressPrefix<T>(data: seq<T>, old2new: seq<Index>, i: nat): (r: seq<T>)
    requires |old2new| == |data| && i <= |data| && IsCompressMap(old2new)
    ensures |r| == |data|
    ensures forall k :: i <= k < |data| ==> r[k] == data[k]
    decreases i
  {
    if i == 0 then data
    else
      var prev := CompressPrefix(data, old2new, i - 1);
      var j := old2new[i - 1];
      if j == NO_ID then prev else prev[j := data[i - 1]]
  }

  /**
   * `compress( old2new )` on a vector store's items (attributes.h:401-417):
   * every kept item `i` is copied to `old2new[i]`, and the buffer is then cut
   * to CompressedSize(old2new) items.
   */
  function Compressed<T>(data: seq<T>, old2new: seq<Index>): (r: seq<T>)
    requires |old2new| == |data| && IsCompressMap(old2new)
    ensures |r| == CompressedSize(old2new)
  {
    CompressPrefix(data, old2new, |data|)[..CompressedSize(old2new)]
  }

  /**
   * An item copied by step `k` is still in place after step `i` unless a later
   * kept item was sent to the same index.
   */
  lemma {:induction false} CompressPrefixKeeps<T>(data: seq<T>, old2new: seq<Index>, i: nat, k: nat)
    requires |old2new| == |data| && i <= |data| && IsCompressMap(old2new)
    requires k < i && old2new[k] != NO_ID
    requires forall k' :: k < k' < i ==> old2new[k'] != old2new[k]
    ensures old2new[k] < |data|
    ensures CompressPrefix(data, old2new, i)[old2new[k]] == data[k]
    decreases i
  {
    if k < i - 1 {
      CompressPrefixKeeps(data, old2new, i - 1, k);
    }
  }

  /**
   * The documented meaning of `compress` (attributes.h:404-411):
   * `data2[ old2new[i] ] = data[i]` for every kept `i`, later items winning
   * when two are sent to the same index.
   */
  lemma CompressedMovesKeptItem<T>(data: seq<T>, old2new: seq<Index>, k: nat)
    requires |old2new| == |data| && IsCompressMap(old2new)
    requires k < |data| && old2new[k] != NO_ID
    requires forall k' :: k < k' < |data| ==> old2new[k'] != old2new[k]
    ensures old2new[k] < |Compressed(data, old2new)|
    ensures Compressed(data, old2new)[old2new[k]] == data[k]
  {
    CompressPrefixKeeps(data, old2new, |data|, k);
  }

  /** Kept items are sent to pairwise different indices. */
  predicate KeptTargetsDistinct(old2new: seq<Index>) {
    forall i, j :: 0 <= i < j < |old2new| && old2new[i] != NO_ID ==> old2new[i] != old2new[j]
  }

  /** With distinct targets, every kept item ends at its new index. */
  lemma CompressedMovesAllKeptItems<T>(data: seq<T>, old2new: seq<Index>)
    requires |old2new| == |data| && IsCompressMap(old2new) && KeptTargetsDistinct(old2new)
    ensures forall i :: 0 <= i < |data| && old2new[i] != NO_ID ==>
              old2new[i] < |Compressed(data, old2new)| && Compressed(data, old2new)[old2new[i]] == data[i]
  {
    forall i | 0 <= i < |data| && old2new[i] != NO_ID
      ensures old2new[i] < |Compressed(data, old2new)| && Compressed(data, old2new)[old2new[i]] == data[i]
    {
      CompressedMovesKeptItem(data, old2new, i);
    }
  }

  /** Number of kept entries among the first `i` entries of a compress map. */
  function KeptBefore(old2new: seq<Index>, i: nat): (n: nat)
    requires i <= |old2new|
    ensures n <= i
  {
    if i == 0 then 0 else KeptBefore(old2new, i - 1) + (if old2new[i - 1] == NO_ID then 0 else 1)
  }

  /** Number of kept entries in a compress map. */
  function KeptCount(old2new: seq<Index>): (n: nat)
    ensures n <= |old2new|
  {
    KeptBefore(old2new, |old2new|)
  }

  /** A compacting map numbers the kept items 0, 1, 2, ... in their order. */
  predicate IsCompacting(old2new: seq<Index>) {
    forall i :: 0 <= i < |old2new| && old2new[i] != NO_ID ==> old2new[i] == KeptBefore(old2new, i)
  }

  /** The kept count grows with the prefix, strictly past a kept entry. */
  lemma {:induction false} KeptBeforeMonotone(old2new: seq<Index>, i: nat, j: nat)
    requires i <= j <= |old2new|
    ensures KeptBefore(old2new, i) <= KeptBefore(old2new, j)
    ensures i < j && old2new[i] != NO_ID ==> KeptBefore(old2new, i) < KeptBefore(old2new, j)
    decreases j - i
  {
    if i < j {
      KeptBeforeMonotone(old2new, i, j - 1);
    }
  }

  /** A compacting map keeps the precondition of `compress`. */
  lemma CompactingIsCompressMap(old2new: seq<Index>)
    requires IsCompacting(old2new)
    ensures IsCompressMap(old2new)
  {
  }

  /** A compacting map sends kept items to pairwise different indices. */
  lemma CompactingTargetsDistinct(old2new: seq<Index>)
    requires IsCompacting(old2new)
    ensures KeptTargetsDistinct(old2new)
  {
    forall i, j | 0 <= i < j < |old2new| && old2new[i] != NO_ID ensures old2new[i] != old2new[j] {
      KeptBeforeMonotone(old2new, i, j);
    }
  }

  /** A compacting map leaves exactly as many items as it keeps. */
  lemma CompactingSizeIsKeptCount(old2new: seq<Index>)
    requires IsCompacting(old2new)
    ensures CompressedSize(old2new) == KeptCount(old2new)
  {
    CompactingSizeAfter(old2new, |old2new|);
  }

  lemma {:induction false} CompactingSizeAfter(old2new: seq<Index>, i: nat)
    requires IsCompacting(old2new) && i <= |old2new|
    ensures CompressedSizeAfter(old2new, i) == KeptBefore(old2new, i)
  {
    if i > 0 {
      CompactingSizeAfter(old2new, i - 1);
    }
  }

  // ------------------------------------------------------- apply_permutation

  /** `perm` is a permutation of [0, n): n indices below n, pairwise distinct. */
  predicate IsPermutation(perm: seq<Index>, n: nat) {
    && |perm| == n
    && (forall i :: 0 <= i < n ==> perm[i] < n)
    && (forall i, j :: 0 <= i < j < n ==> perm[i] != perm[j])
  }

  /**
   * `apply_permutation( perm )` on a store's items (attributes.h:90-106):
   * position `i` receives the item previously at `perm[i]`.
   */
  function Permuted<T>(data: seq<T>, perm: seq<Index>): (r: seq<T>)
    requires forall i :: 0 <= i < |perm| ==> perm[i] < |data|
    ensures |r| == |perm|
    ensures forall i :: 0 <= i < |perm| ==> r[i] == data[perm[i]]
  {
    seq(|perm|, i requires 0 <= i < |perm| => data[perm[i]])
  }

  lemma SubsetCard(a: set<int>, b: set<int>)
    requires a <= b
    ensures |a| <= |b|
  {
    assert b == a + (b - a);
    assert a * (b - a) == {};
  }

  /** The sequence 0, 1, ..., n - 1. */
  function Iota(n: nat): (s: seq<int>)
    ensures |s| == n && forall i :: 0 <= i < n ==> s[i] == i
  {
    seq(n, i => i)
  }

  /** The set of the first `m` values of an injective sequence has `m` elements. */
  lemma {:induction false} ImageCard(s: seq<int>, m: nat)
    requires m <= |s|
    requires forall i, j :: 0 <= i < j < m ==> s[i] != s[j]
    ensures |set i | 0 <= i < m :: s[i]| == m
  {
    if m > 0 {
      ImageCard(s, m - 1);
      var prev := set i | 0 <= i < m - 1 :: s[i];
      assert (set i | 0 <= i < m :: s[i]) == prev + {s[m - 1]};
      assert s[m - 1] !in prev;
    }
  }

  /** A permutation of [0, n) reaches every index (pigeonhole). */
  lemma PermutationIsOnto(perm: seq<Index>, n: nat)
    requires IsPermutation(perm, n)
    ensures forall k :: 0 <= k < n ==> k in perm
  {
    var iota := Iota(n);
    var image := set i | 0 <= i < n :: perm[i] as int;
    var range := set i | 0 <= i < n :: iota[i];
    ImageCard(perm, n);
    ImageCard(iota, n);
    forall k | 0 <= k < n ensures k in perm {
      if k !in image {
        assert iota[k] == k;
        forall x | x in image ensures x in range - {k} {
          var i :| 0 <= i < n && perm[i] == x;
          assert iota[x] == x;
        }
        SubsetCard(image, range - {k});
        assert false;
      }
    }
  }

  /** Position of `k` in `perm`. */
  function IndexOf(perm: seq<Index>, k: int): (r: nat)
    requires k in perm
    ensures r < |perm| && perm[r] == k
  {
    if perm[0] == k then 0 else 1 + IndexOf(perm[1..], k)
  }

  /** The inverse permutation: `Inverse(perm)[perm[i]] == i`. */
  function Inverse(perm: seq<Index>): (q: seq<Index>)
    requires IsPermutation(perm, |perm|) && |perm| <= INDEX_LIMIT
    ensures IsPermutation(q, |perm|)
    ensures forall i :: 0 <= i < |perm| ==> q[perm[i]] == i
    ensures forall k :: 0 <= k < |perm| ==> perm[q[k]] == k
  {
    PermutationIsOnto(perm, |perm|);
    var q := seq(|perm|, k requires 0 <= k < |perm| => IndexOf(perm, k) as Index);
    assert forall i :: 0 <= i < |perm| ==> q[perm[i]] == i by {
      forall i | 0 <= i < |perm| ensures q[perm[i]] == i {
        var j := q[perm[i]];
        assert perm[j] == perm[i];
      }
    }
    q
  }

  /**
   * Applying a permutation and then its inverse restores the original order
   * and values, in both orders of application.
   */
  lemma PermuteThenInverseRestores<T>(data: seq<T>, perm: seq<Index>)
    requires IsPermutation(perm, |data|) && |data| <= INDEX_LIMIT
    ensures Permuted(Permuted(data, perm), Inverse(perm)) == data
    ensures Permuted(Permuted(data, Inverse(perm)), perm) == data
  {
  }

  // ---------------------------------------------- the operations on a store

  /**
   * `compress( old2new )` of a store: a vector store is compressed, a constant
   * store is left unchanged (attributes.h:274-277).
   */
  function CompressedView<T>(v: StoreView<T>, old2new: seq<Index>): (r: StoreView<T>)
    requires v.Valid()
    requires v.kind == VectorKind ==> |old2new| == v.size && IsCompressMap(old2new)
    ensures r.Valid()
    ensures r.kind == v.kind && r.typeId == v.typeId && r.elementSize == v.elementSize
    ensures v.kind == ConstantKind ==> r == v
    ensures v.kind == VectorKind ==> r.size == CompressedSize(old2new) && r.items == Compressed(v.items, old2new)
  {
    if v.kind == ConstantKind then v
    else v.(size := CompressedSize(old2new) as Index, items := Compressed(v.items, old2new))
  }

  /**
   * `apply_permutation( perm )` of a store: a vector store is permuted, a
   * constant store is left unchanged (attributes.h:295-299).
   */
  function PermutedView<T>(v: StoreView<T>, perm: seq<Index>): (r: StoreView<T>)
    requires v.Valid()
    requires v.kind == VectorKind ==> IsPermutation(perm, v.size)
    ensures r.Valid()
    ensures r.kind == v.kind && r.typeId == v.typeId && r.elementSize == v.elementSize && r.size == v.size
    ensures v.kind == ConstantKind ==> r == v
    ensures v.kind == VectorKind ==> forall i :: 0 <= i < v.size ==> r.items[i] == v.items[perm[i]]
  {
    if v.kind == ConstantKind then v else v.(items := Permuted(v.items, perm))
  }

  /**
   * `copy_item( to, from )` of a store: item `to` of a vector store receives
   * item `from`; a constant store is left unchanged (attributes.h:305-308).
   */
  function CopiedItemView<T>(v: StoreView<T>, to: Index, from: Index): (r: StoreView<T>)
    requires v.Valid()
    requires v.kind == VectorKind ==> to < v.size && from < v.size
    ensures r.Valid()
    ensures r.kind == v.kind && r.typeId == v.typeId && r.elementSize == v.elementSize && r.size == v.size
    ensures v.kind == ConstantKind ==> r == v
    ensures v.kind == VectorKind ==>
              r.items[to] == v.items[from] && forall k :: 0 <= k < v.size && k != to ==> r.items[k] == v.items[k]
  {
    if v.kind == ConstantKind then v else v.(items := v.items[to := v.items[from]])
  }

  /** A constant store has one item whatever structural operation is applied to it. */
  lemma ConstantStoreStaysSingle<T>(v: StoreView<T>, n: Index, old2new: seq<Index>, perm: seq<Index>, to: Index, from: Index)
    requires v.Valid() && v.kind == ConstantKind
    ensures Resized(v, n) == v
    ensures Cleared(v).size == 1
    ensures CompressedView(v, old2new) == v
    ensures PermutedView(v, perm) == v
    ensures CopiedItemView(v, to, from) == v
  {
  }

  /** Permuting a vector store by a permutation and then by its inverse restores it. */
  lemma PermutedViewInverse<T>(v: StoreView<T>, perm: seq<Index>)
    requires v.Valid() && IsPermutation(perm, v.size)
    ensures PermutedView(PermutedView(v, perm), Inverse(perm)) == v
  {
    if v.kind == VectorKind {
      PermuteThenInverseRestores(v.items, perm);
    }
  }
}
