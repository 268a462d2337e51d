/**
  The parts of the .NET collection types the core relies on: the arguments
  of a collection-changed event, the shapes an observable collection gives
  them, and `List<T>.Remove`.
 */
module Collections {
  import opened Wrappers

  datatype ChangeAction = Add | Remove | Replace | Move | Reset

  /**
    The arguments of a collection-changed event. A missing item list is
    None (null in .NET); a missing starting index is -1.
   */
  datatype CollectionChange<T> = CollectionChange(
    action: ChangeAction,
    newItems: Option<seq<T>>,
    oldItems: Option<seq<T>>,
    newStartingIndex: int,
    oldStartingIndex: int)
  {
    /** What every constructor of the .NET event arguments guarantees: an index is given only with its items. */
    predicate WellFormed() {
      && (oldStartingIndex >= 0 ==> oldItems.Some?)
      && (newStartingIndex >= 0 ==> newItems.Some?)
    }
  }

  function Insert<T>(s: seq<T>, k: nat, x: T): (r: seq<T>)
    requires k <= |s|
    ensures |r| == |s| + 1 && r[k] == x
    ensures multiset(r) == multiset(s) + multiset{x}
  {
    assert s == s[..k] + s[k..];
    s[..k] + [x] + s[k..]
  }

  /**
    `e` is the event an observable collection raises when its items go from
    `before` to `after`: Add, Remove, Replace and Move carry what changed and
    where; Reset, raised by Clear, carries nothing.
   */
  ghost predicate Describes<T>(e: CollectionChange<T>, before: seq<T>, after: seq<T>) {
    match e.action
    case Add =>
      && e.oldItems.None? && e.oldStartingIndex == -1 && e.newItems.Some?
      && 0 <= e.newStartingIndex <= |before|
      && after == before[..e.newStartingIndex] + e.newItems.value + before[e.newStartingIndex..]
    case Remove =>
      && e.newItems.None? && e.newStartingIndex == -1 && e.oldItems.Some?
      && 0 <= e.oldStartingIndex && e.oldStartingIndex + |e.oldItems.value| <= |before|
      && before[e.oldStartingIndex..e.oldStartingIndex + |e.oldItems.value|] == e.oldItems.value
      && after == before[..e.oldStartingIndex] + before[e.oldStartingIndex + |e.oldItems.value|..]
    case Replace =>
      && e.oldItems.Some? && e.newItems.Some?
      && 0 <= e.oldStartingIndex == e.newStartingIndex
      && e.oldStartingIndex + |e.oldItems.value| <= |before|
      && before[e.oldStartingIndex..e.oldStartingIndex + |e.oldItems.value|] == e.oldItems.value
      && after == before[..e.oldStartingIndex] + e.newItems.value + before[e.oldStartingIndex + |e.oldItems.value|..]
    case Move =>
      && e.oldItems.Some? && e.newItems.Some? && |e.oldItems.value| == 1 && e.newItems == e.oldItems
      && 0 <= e.oldStartingIndex < |before| && 0 <= e.newStartingIndex < |before|
      && before[e.oldStartingIndex] == e.oldItems.value[0]
      && after == Insert(before[..e.oldStartingIndex] + before[e.oldStartingIndex + 1..],
                         e.newStartingIndex, e.oldItems.value[0])
    case Reset =>
      && e.oldItems.None? && e.newItems.None?
      && e.oldStartingIndex == -1 && e.newStartingIndex == -1
      && after == []
  }

  lemma DescribedIsWellFormed<T>(e: CollectionChange<T>, before: seq<T>, after: seq<T>)
    requires Describes(e, before, after)
    ensures e.WellFormed()
  {
  }

  /** The index of the first occurrence of `x` in `s`. */
  function IndexOf<T(==)>(s: seq<T>, x: T): (i: nat)
    requires x in s
    ensures i < |s| && s[i] == x
    ensures forall j :: 0 <= j < i ==> s[j] != x
  {
    if s[0] == x then 0 else 1 + IndexOf(s[1..], x)
  }

  /** `List<T>.Remove`: drops the first occurrence of `x`, if there is one. */
  function RemoveFirst<T(==)>(s: seq<T>, x: T): (r: seq<T>)
    ensures |r| <= |s| <= |r| + 1
  {
    if s == [] then []
    else if s[0] == x then s[1..]
    else [s[0]] + RemoveFirst(s[1..], x)
  }

  /** Removal of an absent element changes nothing. */
  lemma {:induction false} RemoveFirstAbsent<T>(s: seq<T>, x: T)
    requires x !in s
    ensures RemoveFirst(s, x) == s
  {
    if s != [] {
      RemoveFirstAbsent(s[1..], x);
      assert s == [s[0]] + s[1..];
    }
  }

  /**
    Removal takes out exactly the first occurrence: what stands before and
    after it stays, in the same order.
   */
  lemma {:induction false} RemoveFirstSplit<T>(p: seq<T>, x: T, q: seq<T>)
    requires x !in p
    ensures RemoveFirst(p + [x] + q, x) == p + q
  {
    if p == [] {
      assert p + [x] + q == [x] + q;
    } else {
      RemoveFirstSplit(p[1..], x, q);
      assert (p + [x] + q)[1..] == p[1..] + [x] + q;
      assert p + q == [p[0]] + (p[1..] + q);
    }
  }

  /** Removal of a present element drops it at its first index and keeps everything else in order. */
  lemma RemoveFirstPresent<T>(s: seq<T>, x: T)
    requires x in s
    ensures RemoveFirst(s, x) == s[..IndexOf(s, x)] + s[IndexOf(s, x) + 1..]
  {
    var i := IndexOf(s, x);
    assert s == s[..i] + [x] + s[i + 1..];
    assert x !in s[..i];
    RemoveFirstSplit(s[..i], x, s[i + 1..]);
  }

  /** Removal takes away one occurrence of `x`, if there is one, and nothing else. */
  lemma {:induction false} RemoveFirstMultiset<T>(s: seq<T>, x: T)
    ensures multiset(RemoveFirst(s, x)) == multiset(s) - multiset{x}
  {
    if s != [] {
      assert s == [s[0]] + s[1..];
      if s[0] != x {
        RemoveFirstMultiset(s[1..], x);
        assert multiset(s) - multiset{x} == multiset{s[0]} + (multiset(s[1..]) - multiset{x});
      }
    }
  }

  /** Removal of `x` from a list that already had `x` appended and held no `x` before gives the list back. */
  lemma RemoveAppended<T>(s: seq<T>, x: T)
    requires x !in s
    ensures RemoveFirst(s + [x], x) == s
  {
    RemoveFirstSplit(s, x, []);
    assert s + [x] + [] == s + [x];
    assert s + [] == s;
  }
}
