/**
 * The integer loop helper `range` and the message of `RINGMeshException`
 * (include/ringmesh/basic/common.h, lines 157-247).
 */
module Common {
  import opened Types

  // ---------------------------------------------------------------- range

  /**
   * `range` (common.h:207-247): a counter `iter_` that runs up to `last_`,
   * serving both as the iterable and as its own iterator.
   */
  class Range {
    /** `iter_` and `last_` (245-246). */
    var iter: Index
    var last: Index

    /** `range( begin, end )` (209-214): both bounds are cast to `index_t`. */
    constructor (begin: int, end: int)
      ensures iter == ToIndex(begin) && last == ToIndex(end)
    {
      iter := ToIndex(begin);
      last := ToIndex(end);
    }

    /** `range( end )` (216-220): the counter starts at its default, 0. */
    constructor UpTo(end: int)
      ensures iter == 0 && last == ToIndex(end)
    {
      iter := 0;
      last := ToIndex(end);
    }

    /** The copy a range-based `for` makes of what `begin()` or `end()` returns. */
    method Copy() returns (c: Range)
      ensures fresh(c) && c.iter == iter && c.last == last
    {
      c := new Range(iter, last);
    }

    /** `begin()` (222-225): the range itself. */
    function Begin(): (r: Range)
      ensures r == this
    {
      this
    }

    /** `end()` (226-229): the range itself. */
    function End(): (r: Range)
      ensures r == this
    {
      this
    }

    /**
     * `operator!=( const range& )` (231-234): whether the counter is still
     * below `last_`, whatever range it is compared with.
     */
    predicate NotEqual(other: Range)
      reads this
    {
      iter < last
    }

    /**
     * `operator++()` (235-238): the counter goes up by one, wrapping around
     * at 2^32 as `index_t` does; `last_` is left as it was.
     */
    method Increment()
      modifies this
      ensures iter == ToIndex(old(iter) + 1) && last == old(last)
      ensures old(iter) < last ==> iter == old(iter) + 1
    {
      iter := ToIndex(iter + 1);
    }

    /** `operator*()` (239-242): the current counter. */
    function Current(): Index
      reads this
    {
      iter
    }
  }

  /**
   * `for( index_t i : r ) { ... }` over `r`: the loop copies `r.begin()`
   * and `r.end()`, and yields `*` of the first copy and increments it while
   * `!=` holds. It visits `b, b + 1, ..., e - 1` in that order, where `b`
   * and `e` are the two bounds of `r`, nothing when `b >= e`, and `r`
   * itself is left as it was.
   */
  method Visit(r: Range) returns (visited: seq<Index>)
    ensures |visited| == if r.iter < r.last then r.last - r.iter else 0
    ensures forall k :: 0 <= k < |visited| ==> visited[k] == r.iter + k
  {
    var it := r.Begin().Copy();
    var stop := r.End().Copy();
    visited := [];
    while it.NotEqual(stop)
      invariant it.last == r.last && r.iter <= it.iter
      invariant r.iter < r.last ==> it.iter <= r.last
      invariant r.iter >= r.last ==> it.iter == r.iter
      invariant |visited| == it.iter - r.iter
      invariant forall k :: 0 <= k < |visited| ==> visited[k] == r.iter + k
      decreases r.last - it.iter
    {
      visited := visited + [it.Current()];
      it.Increment();
    }
  }

  /** `range( n )` visits `0, 1, ..., n - 1`, for any `n` an `index_t` holds. */
  method VisitUpTo(n: Index) returns (visited: seq<Index>)
    ensures |visited| == n && forall k :: 0 <= k < n ==> visited[k] == k
  {
    var r := new Range.UpTo(n);
    visited := Visit(r);
  }

  /**
   * `range( 5, 2 )`, whose begin is after its end, visits nothing; so does
   * `range( -5, 0 )`: the cast turns -5 into 2^32 - 5, which is not below
   * the end 0.
   */
  method VisitExamples() returns (backwards: seq<Index>, wrapped: seq<Index>, wrappedBegin: Index)
    ensures backwards == [] && wrapped == [] && wrappedBegin == INDEX_LIMIT - 5
  {
    var r := new Range(5, 2);
    backwards := Visit(r);
    var q := new Range(-5, 0);
    wrappedBegin := q.iter;
    wrapped := Visit(q);
  }

  // ---------------------------------------------------------------- RINGMeshException

  /**
   * `RINGMeshException` (common.h:157-192): a category and the message
   * `std::runtime_error` holds.
   */
  datatype RINGMeshException = RINGMeshException(category: string, message: string)

  /**
   * `string_concatener( messages... )` (176-189) over the string forms of
   * its arguments: the first followed by the concatenation of the others.
   * It takes at least one argument.
   */
  function StringConcatener(messages: seq<string>): string
    requires |messages| >= 1
  {
    if |messages| == 1 then messages[0] else messages[0] + StringConcatener(messages[1..])
  }

  /** The total length of `messages`. */
  function TotalLength(messages: seq<string>): nat {
    if |messages| == 0 then 0 else |messages[0]| + TotalLength(messages[1..])
  }

  /** Where message `k` starts in the concatenation. */
  function Offset(messages: seq<string>, k: nat): nat
    requires k <= |messages|
  {
    TotalLength(messages[..k])
  }

  /** `RINGMeshException( category, messages... )` (159-165). */
  function NewException(category: string, messages: seq<string>): (e: RINGMeshException)
    requires |messages| >= 1
    ensures e.category == category && e.message == StringConcatener(messages)
  {
    RINGMeshException(category, StringConcatener(messages))
  }

  /** `category()` (170-173): the category the exception was built with. */
  function Category(e: RINGMeshException): string {
    e.category
  }

  /** The category of a new exception is the one given to its constructor. */
  lemma CategoryKept(category: string, messages: seq<string>)
    requires |messages| >= 1
    ensures Category(NewException(category, messages)) == category
  {
  }

  /**
   * The message is the messages, in order and with nothing between them:
   * it has their total length, and message `k` is found at its offset.
   */
  lemma {:induction false} ConcatenationInOrder(messages: seq<string>, k: nat)
    requires |messages| >= 1 && k < |messages|
    ensures |StringConcatener(messages)| == TotalLength(messages)
    ensures Offset(messages, k) + |messages[k]| <= |StringConcatener(messages)|
    ensures StringConcatener(messages)[Offset(messages, k)..Offset(messages, k) + |messages[k]|] == messages[k]
  {
    var c := StringConcatener(messages);
    if |messages| == 1 {
      assert messages[..0] == [];
      assert messages[1..] == [];
    } else {
      var rest := messages[1..];
      if k == 0 {
        assert messages[..0] == [];
        ConcatenationInOrder(rest, 0);
      } else {
        ConcatenationInOrder(rest, k - 1);
        assert messages[..k][1..] == rest[..k - 1];
        assert Offset(messages, k) == |messages[0]| + Offset(rest, k - 1);
        assert c[Offset(messages, k)..Offset(messages, k) + |messages[k]|]
            == StringConcatener(rest)[Offset(rest, k - 1)..Offset(rest, k - 1) + |rest[k - 1]|];
      }
    }
  }

  /**
   * Concatenating two runs of messages is concatenating their two
   * concatenations.
   */
  lemma {:induction false} ConcatenationSplits(a: seq<string>, b: seq<string>)
    requires |a| >= 1 && |b| >= 1
    ensures StringConcatener(a + b) == StringConcatener(a) + StringConcatener(b)
  {
    if |a| == 1 {
      assert (a + b)[1..] == b;
    } else {
      assert (a + b)[1..] == a[1..] + b;
      ConcatenationSplits(a[1..], b);
    }
  }
}
