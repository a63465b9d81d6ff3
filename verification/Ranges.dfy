/** The cursor protocol of src/range: `init` and `next` of ForwardRangeData, SortedRangeData and
    FilterRangeData, the Iterator over them, and the range-based for loop. */
module Ranges {
  import opened Options
  import opened Multimaps

  /** What a range is made of. A filtered range has no container of its own. */
  datatype Kind<!T> =
    | Forward(items: seq<T>)
    | SortedBy(container: seq<Pair<T>>, begin: real, end: real)
    | Filtered(keep: T -> bool)

  function Filter<T>(s: seq<T>, keep: T -> bool): seq<T> {
    if s == [] then []
    else if keep(s[0]) then [s[0]] + Filter(s[1..], keep)
    else Filter(s[1..], keep)
  }

  function Values<T>(es: seq<Pair<T>>): seq<T> {
    seq(|es|, i requires 0 <= i < |es| => es[i].value)
  }

  lemma {:induction false} BetweenFirst<T>(p: Pair<T>, es: seq<Pair<T>>, begin: real, end: real)
    ensures Between([p] + es, begin, end) == (if begin < p.key <= end then [p] else []) + Between(es, begin, end)
  {
    var all := [p] + es;
    if es == [] {
      assert all[..0] == [];
    } else {
      BetweenFirst(p, es[..|es| - 1], begin, end);
      assert all[..|all| - 1] == [p] + es[..|es| - 1];
    }
  }

  lemma {:induction false} NothingBetween<T>(es: seq<Pair<T>>, begin: real, end: real)
    requires forall i :: 0 <= i < |es| ==> es[i].key <= begin || es[i].key > end
    ensures Between(es, begin, end) == []
  {
    if es != [] {
      NothingBetween(es[..|es| - 1], begin, end);
    }
  }

  /** Entries before the upper bound of `begin` are outside the range. */
  lemma {:induction false} SkipToUpperBound<T>(es: seq<Pair<T>>, k: nat, begin: real, end: real)
    requires k <= |es| && forall i :: 0 <= i < k ==> es[i].key <= begin
    ensures Between(es[k..], begin, end) == Between(es, begin, end)
  {
    if k == 0 {
      assert es[0..] == es;
    } else {
      SkipToUpperBound(es, k - 1, begin, end);
      assert es[k - 1..] == [es[k - 1]] + es[k..];
      BetweenFirst(es[k - 1], es[k..], begin, end);
    }
  }

  /** Filtering twice is filtering by the conjunction. */
  lemma {:induction false} FilterTwice<T>(s: seq<T>, p: T -> bool, q: T -> bool)
    ensures Filter(Filter(s, p), q) == Filter(s, x => p(x) && q(x))
  {
    if s != [] {
      FilterTwice(s[1..], p, q);
      var rest := Filter(s[1..], p);
      if p(s[0]) {
        assert ([s[0]] + rest)[1..] == rest;
      }
    }
  }

  /** A filter takes out exactly the elements that fail, each as often as it is there. */
  lemma {:induction false} FilterCounts<T>(s: seq<T>, keep: T -> bool, x: T)
    ensures multiset(Filter(s, keep))[x] == if keep(x) then multiset(s)[x] else 0
  {
    if s != [] {
      FilterCounts(s[1..], keep, x);
      assert s == [s[0]] + s[1..];
    }
  }

  class RangeData<T> {
    const kind: Kind<T>
    const inner: RangeData?<T>
    ghost const depth: nat
    var position: nat

    ghost predicate Valid()
      decreases depth
    {
      match kind
      case Forward(_) => true
      case SortedBy(container, _, _) => Sorted(container)
      case Filtered(_) => inner != null && inner.depth < depth && inner.Valid()
    }

    /** The elements of the range, in order. */
    ghost function Items(): seq<T>
      requires Valid()
      decreases depth
    {
      match kind
      case Forward(items) => items
      case SortedBy(container, begin, end) => Values(Between(container, begin, end))
      case Filtered(keep) => Filter(inner.Items(), keep)
    }

    /** The object that holds the cursor: all filters over a range share it. */
    ghost function Leaf(): RangeData<T>
      requires Valid()
      decreases depth
    {
      if kind.Filtered? then inner.Leaf() else this
    }

    /** The elements from the cursor on. */
    ghost function Rest(): seq<T>
      requires Valid()
      reads Leaf()
      decreases depth
    {
      match kind
      case Forward(items) => if position <= |items| then items[position..] else []
      case SortedBy(container, begin, end) =>
        if position <= |container| then Values(Between(container[position..], begin, end)) else []
      case Filtered(keep) => Filter(inner.Rest(), keep)
    }

    /** The cursor is at an element of the range. */
    ghost predicate AtElement()
      requires Valid()
      reads Leaf()
      decreases depth
    {
      match kind
      case Forward(items) => position < |items|
      case SortedBy(container, begin, end) => position < |container| && begin < container[position].key <= end
      case Filtered(keep) => inner.AtElement() && inner.Rest() != [] && keep(inner.Rest()[0])
    }

    ghost predicate Agrees(value: Option<T>)
      requires Valid()
      reads Leaf()
    {
      if value.None? then Rest() == [] else AtElement() && Rest() != [] && Rest()[0] == value.value
    }

    constructor OfSequence(items: seq<T>)
      ensures Valid() && Items() == items && fresh(Leaf())
    {
      kind, inner, depth, position := Forward(items), null, 0, 0;
    }

    constructor OfMultimap(container: seq<Pair<T>>, begin: real, end: real)
      requires Sorted(container)
      ensures Valid() && Items() == Values(Between(container, begin, end)) && fresh(Leaf())
    {
      kind, inner, depth, position := SortedBy(container, begin, end), null, 0, 0;
    }

    constructor OfFilter(range: RangeData<T>, keep: T -> bool)
      requires range.Valid()
      ensures Valid() && Items() == Filter(range.Items(), keep) && Leaf() == range.Leaf()
    {
      kind, inner, depth, position := Filtered(keep), range, range.depth + 1, 0;
    }

    /** `iterate` of SortedRangeData: the entry under the cursor, if it is in the range. */
    method Iterate() returns (value: Option<T>)
      requires Valid() && kind.SortedBy? && position <= |kind.container|
      requires forall i :: position <= i < |kind.container| ==> kind.container[i].key > kind.begin
      ensures Agrees(value)
    {
      var m := kind.container;
      if position != |m| && m[position].key <= kind.end {
        assert m[position..] == [m[position]] + m[position + 1..];
        BetweenFirst(m[position], m[position + 1..], kind.begin, kind.end);
        value := Some(m[position].value);
      } else {
        NothingBetween(m[position..], kind.begin, kind.end);
        value := None;
      }
    }

    /** Starts afresh, wherever the cursor was. */
    method Init() returns (value: Option<T>)
      requires Valid()
      modifies Leaf()
      ensures Rest() == Items() && Agrees(value)
      decreases depth, 1
    {
      match kind
      case Forward(items) =>
        position := 0;
        value := if position != |items| then Some(items[position]) else None;
      case SortedBy(container, begin, end) =>
        position := UpperBound(container, begin);
        SkipToUpperBound(container, position, begin, end);
        value := Iterate();
      case Filtered(keep) =>
        value := inner.Init();
        value := SkipRejected(value);
    }

    /** The loop of FilterRangeData: moves the shared cursor on until an element passes. */
    method SkipRejected(start: Option<T>) returns (value: Option<T>)
      requires Valid() && kind.Filtered? && inner.Agrees(start)
      modifies Leaf()
      ensures Rest() == old(Rest()) && Agrees(value)
      decreases depth, 0
    {
      value := start;
      while value.Some? && !kind.keep(value.value)
        invariant inner.Agrees(value) && Filter(inner.Rest(), kind.keep) == old(Rest())
        decreases |inner.Rest()|
      {
        value := inner.Next();
      }
    }

    /** Moves on by one element of the range. */
    method Next() returns (value: Option<T>)
      requires Valid() && AtElement()
      modifies Leaf()
      ensures old(Rest()) != [] && Rest() == old(Rest())[1..] && Agrees(value)
      decreases depth, 1
    {
      hide RangeData.Items;
      match kind
      case Forward(items) =>
        position := position + 1;
        value := if position != |items| then Some(items[position]) else None;
      case SortedBy(container, begin, end) =>
        assert container[position..] == [container[position]] + container[position + 1..];
        BetweenFirst(container[position], container[position + 1..], begin, end);
        position := position + 1;
        value := Iterate();
      case Filtered(keep) =>
        value := inner.Next();
        value := SkipRejected(value);
    }
  }

  /** A range-based for loop that gathers what it visits. */
  method Collect<T>(range: RangeData<T>) returns (visited: seq<T>)
    requires range.Valid()
    modifies range.Leaf()
    ensures visited == range.Items()
  {
    hide RangeData.Items, RangeData.Rest, RangeData.AtElement, RangeData.Valid, RangeData.Leaf;
    visited := [];
    var value := range.Init();
    while value.Some?
      invariant range.Agrees(value) && visited + range.Rest() == range.Items()
      decreases |range.Rest()|
    {
      ghost var rest := range.Rest();
      assert visited + rest == visited + [value.value] + rest[1..];
      visited := visited + [value.value];
      value := range.Next();
    }
  }

  /** Two filters in a chain, visited by one loop. */
  method CollectFilteredTwice<T>(range: RangeData<T>, p: T -> bool, q: T -> bool) returns (visited: seq<T>)
    requires range.Valid()
    modifies range.Leaf()
    ensures visited == Filter(range.Items(), x => p(x) && q(x))
  {
    var once := new RangeData.OfFilter(range, p);
    var twice := new RangeData.OfFilter(once, q);
    visited := Collect(twice);
    FilterTwice(range.Items(), p, q);
  }
}
