/**
  The embedded bounded cache (arduino/lib/tl/src/tl/cache_set.h): a ring of slot numbers that
  is permuted in place, and a set of entries stored in those slots.
*/
module CacheSets {
  import opened Common

  /** 8-bit sums wrap around. */
  const WIDTH := 256

  // ---------------------------------------------------------------- the ring as a sequence

  /** A ring read from `head` on: the slots in use come first, oldest first. */
  function Ring(items: seq<Byte>, head: nat): (r: seq<Byte>)
    requires head <= |items|
  {
    items[head..] + items[..head]
  }

  /** `CircularIndex`: one step past the end is the start again. */
  function Wrapped(index: nat, n: nat): (wrapped: nat)
    requires index < 2 * n
    ensures wrapped == if index < n then index else index - n
  {
    ModOnce(index, n);
    index % n
  }

  lemma ModOnce(index: nat, n: nat)
    requires index < 2 * n
    ensures index % n == if index < n then index else index - n
  {
    if index >= n {
      assert index == n * (index / n) + index % n;
      assert 1 <= index / n < 2;
    }
  }

  lemma RingAt(items: seq<Byte>, head: nat, i: nat)
    requires head < |items| && i < |items|
    ensures Ring(items, head)[i] == items[Wrapped(head + i, |items|)]
  {
    hide Wrapped;
  }

  lemma RingUpdate(items: seq<Byte>, head: nat, i: nat, x: Byte)
    requires head < |items| && i < |items|
    ensures Ring(items[Wrapped(head + i, |items|) := x], head) == Ring(items, head)[i := x]
  {
    hide Wrapped;
  }

  lemma RingAdvance(items: seq<Byte>, head: nat)
    requires head < |items|
    ensures Ring(items, Wrapped(head + 1, |items|)) == Ring(items, head)[1..] + [Ring(items, head)[0]]
  {
    hide Wrapped;
  }

  /** Every number below the length occurs, at one place. */
  ghost predicate Permutation(order: seq<Byte>) {
    (forall i :: 0 <= i < |order| ==> 0 <= order[i] < |order|) && Distinct(order)
  }

  function Below(n: nat): set<int> {
    if n == 0 then {} else Below(n - 1) + {n - 1}
  }

  lemma {:induction false} BelowHas(n: nat, i: int)
    ensures i in Below(n) <==> 0 <= i < n
  {
    if n > 0 {
      BelowHas(n - 1, i);
    }
  }

  lemma {:induction false} BelowSize(n: nat)
    ensures |Below(n)| == n
  {
    if n > 0 {
      BelowSize(n - 1);
      BelowHas(n - 1, n - 1);
    }
  }

  /** No slot is ever lost. */
  lemma EverySlotOccurs(order: seq<Byte>, slot: int)
    requires Permutation(order) && 0 <= slot < |order|
    ensures slot in order
  {
    DistinctSize(order);
    BelowSize(|order|);
    forall x | x in Elements(order) ensures x in Below(|order|) {
      BelowHas(|order|, x);
    }
    SubsetSize(Elements(order), Below(|order|));
    BelowHas(|order|, slot);
  }

  lemma RingKeepsPermutation(items: seq<Byte>, head: nat)
    requires head < |items| && Permutation(items)
    ensures Permutation(Ring(items, head))
  {
  }

  /** The slots in use, and the free ones behind them, once slot `at` of the used ones is given back. */
  function Released(order: seq<Byte>, size: nat, at: nat): (r: seq<Byte>)
    requires at < size <= |order|
    ensures |r| == |order|
  {
    order[..at] + order[at + 1..size] + [order[at]] + order[size..]
  }

  /** `Released` while the slots behind `at` move up one by one: those before `i` have moved. */
  function Shifted(order: seq<Byte>, at: nat, i: nat): (r: seq<Byte>)
    requires at <= i < |order|
    ensures |r| == |order|
  {
    order[..at] + order[at + 1..i + 1] + order[i..]
  }

  lemma ShiftedNotYet(order: seq<Byte>, at: nat)
    requires at < |order|
    ensures Shifted(order, at, at) == order
  {
  }

  lemma ShiftedFurther(order: seq<Byte>, at: nat, i: nat)
    requires at <= i && i + 1 < |order|
    ensures Shifted(order, at, i)[i + 1] == order[i + 1]
    ensures Shifted(order, at, i)[i := order[i + 1]] == Shifted(order, at, i + 1)
  {
  }

  lemma ShiftedToEnd(order: seq<Byte>, size: nat, at: nat)
    requires at < size <= |order|
    ensures Shifted(order, at, size - 1)[size - 1 := order[at]] == Released(order, size, at)
    ensures Released(order, size, at)[..size - 1] == order[..size][..at] + order[..size][at + 1..]
  {
  }

  lemma ReleasedKeepsPermutation(order: seq<Byte>, size: nat, at: nat)
    requires at < size <= |order| && Permutation(order)
    ensures Permutation(Released(order, size, at))
  {
    var r := Released(order, size, at);
    forall k | 0 <= k < |r|
      ensures r[k] == order[if k < at then k else if k < size - 1 then k + 1 else if k == size - 1 then at else k]
    {
    }
  }

  /** A permutation read from a ring was one before. */
  lemma RingWasPermutation(items: seq<Byte>, head: nat)
    requires head < |items| && Permutation(Ring(items, head))
    ensures Permutation(items)
  {
    var r, n := Ring(items, head), |items|;
    forall k | 0 <= k < n ensures items[k] == r[if k >= head then k - head else k - head + n] {
    }
  }

  class IndexMap {
    const map_: array<Byte>
    var head: nat
    var size: Byte

    /** What every operation relies on and keeps, but for `PopOldest` on an empty map. */
    ghost predicate Valid()
      reads this, map_
    {
      InRange() && Permutation(map_[..]) && size <= map_.Length
    }

    ghost predicate InRange()
      reads this
    {
      0 < map_.Length < WIDTH && head < map_.Length
    }

    /** All slots: first those in use, oldest first. */
    ghost function Order(): (order: seq<Byte>)
      requires InRange()
      reads this, map_
      ensures |order| == map_.Length
    {
      Ring(map_[..], head)
    }

    ghost function Used(): (used: seq<Byte>)
      requires Valid()
      reads this, map_
    {
      Order()[..size]
    }

    constructor (n: Byte)
      requires 0 < n
      ensures Valid() && fresh(map_) && map_.Length == n && Used() == []
    {
      map_ := new Byte[n];
      head, size := 0, 0;
      new;
      for i := 0 to n
        invariant map_.Length == n && head == 0 && size == 0 && fresh(map_)
        invariant forall k :: 0 <= k < i ==> map_[k] == k
      {
        map_[i] := i;
      }
    }

    function Offset(offset: nat): nat
      requires InRange() && offset <= map_.Length
      reads this
    {
      Wrapped(head + offset, map_.Length)
    }

    method Advance()
      requires InRange()
      modifies this`head
      ensures InRange() && Order() == old(Order())[1..] + [old(Order())[0]]
    {
      RingAdvance(map_[..], head);
      head := Offset(1);
    }

    predicate Full()
      reads this
    {
      size == map_.Length
    }

    /** The oldest slot becomes the last free one.  There is no check for the empty map, whose
        size then wraps around to 255. */
    method PopOldest()
      requires Valid()
      modifies this
      ensures InRange() && Order() == old(Order())[1..] + [old(Order())[0]]
      ensures size == if old(size) > 0 then old(size) - 1 else WIDTH - 1
      ensures old(size) > 0 ==> Valid() && Used() == old(Used())[1..]
    {
      Advance();
      size := (size + WIDTH - 1) % WIDTH;
    }

    /** The first free slot is taken; when there is none, the oldest. */
    method Push() returns (slot: Byte)
      requires Valid()
      modifies this
      ensures Valid()
      ensures Used() == (if old(Full()) then old(Used())[1..] else old(Used())) + [slot]
      ensures slot < map_.Length && slot !in Used()[..|Used()| - 1]
      ensures slot == old(Order()[if Full() then 0 else size])
    {
      hide Wrapped;
      RingKeepsPermutation(map_[..], head);
      ghost var order := Order();
      if Full() {
        PopOldest();
        assert Order()[size] == order[0];
      }
      RingAt(map_[..], head, size);
      var end := Offset(size);
      size := size + 1;
      slot := map_[end];
    }

    /** map_[head_.offset(i)] read and written. */
    method Get(i: nat) returns (slot: Byte)
      requires InRange() && i < map_.Length
      ensures slot == Order()[i]
    {
      RingAt(map_[..], head, i);
      slot := map_[Offset(i)];
    }

    method Set(i: nat, slot: Byte)
      requires InRange() && i < map_.Length
      modifies map_
      ensures Order() == old(Order())[i := slot]
    {
      RingUpdate(map_[..], head, i, slot);
      map_[Offset(i)] := slot;
    }

    /** Gives back the slot of the `at`-th oldest and keeps the others in order. */
    method Remove(at: Byte)
      requires Valid() && at < size
      modifies this`size, map_
      ensures Valid() && Used() == old(Used())[..at] + old(Used())[at + 1..]
      ensures Order() == Released(old(Order()), old(size), at)
    {
      hide Shifted, Released, Permutation, Ring;
      ghost var order := Order();
      RingKeepsPermutation(map_[..], head);
      size := size - 1;
      var slot := Get(at);
      var i: nat := at;
      ShiftedNotYet(order, at);
      while i < size
        invariant at <= i <= size == old(size) - 1
        invariant Order() == Shifted(order, at, i)
      {
        ShiftedFurther(order, at, i);
        var next := Get(i + 1);
        Set(i, next);
        i := i + 1;
      }
      ShiftedToEnd(order, old(size), at);
      Set(size, slot);
      ReleasedKeepsPermutation(order, old(size), at);
      RingWasPermutation(map_[..], head);
    }

    method Resolve(at: Byte) returns (slot: Byte)
      requires Valid() && at < size
      ensures slot == Used()[at] && slot < map_.Length
    {
      RingKeepsPermutation(map_[..], head);
      slot := Get(at);
    }
  }

  // ---------------------------------------------------------------- entries

  /** An order-preserving filter: what is left once everything `f` holds of is removed. */
  function Without<T>(f: T -> bool, s: seq<T>): seq<T> {
    if s == [] then []
    else
      var n := |s| - 1;
      Without(f, s[..n]) + if f(s[n]) then [] else [s[n]]
  }

  /** How many stay. */
  function Kept<T>(f: T -> bool, s: seq<T>): nat {
    if s == [] then 0
    else Kept(f, s[..|s| - 1]) + if f(s[|s| - 1]) then 0 else 1
  }

  /** Each entry that stays is preceded by exactly those that stood before it and stay. */
  lemma {:induction false} WithoutKeepsOrder<T>(f: T -> bool, s: seq<T>)
    ensures |Without(f, s)| == Kept(f, s)
    ensures forall i :: 0 <= i < |s| && !f(s[i]) ==>
              Kept(f, s[..i]) < Kept(f, s) && Without(f, s)[Kept(f, s[..i])] == s[i]
    decreases |s|
  {
    if s != [] {
      var n := |s| - 1;
      WithoutKeepsOrder(f, s[..n]);
      forall i | 0 <= i < |s| && !f(s[i])
        ensures Kept(f, s[..i]) < Kept(f, s) && Without(f, s)[Kept(f, s[..i])] == s[i]
      {
        if i < n {
          assert s[..n][..i] == s[..i] && s[..n][i] == s[i];
        }
      }
    }
  }

  lemma {:induction false} WithoutHas<T>(f: T -> bool, s: seq<T>, x: T)
    ensures x in Without(f, s) <==> x in s && !f(x)
    decreases |s|
  {
    if s != [] {
      WithoutHas(f, s[..|s| - 1], x);
      assert s == s[..|s| - 1] + [s[|s| - 1]];
    }
  }

  lemma WithoutShortens<T>(f: T -> bool, s: seq<T>)
    ensures |Without(f, s)| <= |s|
  {
  }

  predicate NoMatch<T>(f: T -> bool, s: seq<T>) {
    forall i :: 0 <= i < |s| ==> !f(s[i])
  }

  lemma {:induction false} NothingToRemove<T>(f: T -> bool, s: seq<T>)
    requires NoMatch(f, s)
    ensures Without(f, s) == s
    decreases |s|
  {
    if s != [] {
      NothingToRemove(f, s[..|s| - 1]);
    }
  }

  /** The sequence with the first entry `f` holds of removed, if there is one. */
  function WithoutFirst<T>(f: T -> bool, s: seq<T>): seq<T> {
    if s == [] then [] else if f(s[0]) then s[1..] else [s[0]] + WithoutFirst(f, s[1..])
  }

  lemma {:induction false} FirstMatchRemoved<T>(f: T -> bool, s: seq<T>, i: nat)
    requires i < |s| && f(s[i]) && NoMatch(f, s[..i])
    ensures WithoutFirst(f, s) == s[..i] + s[i + 1..]
    decreases |s|
  {
    if i > 0 {
      assert !f(s[..i][0]);
      assert s[1..][..i - 1] == s[..i][1..];
      FirstMatchRemoved(f, s[1..], i - 1);
    }
  }

  lemma {:induction false} NoFirstMatch<T>(f: T -> bool, s: seq<T>)
    requires NoMatch(f, s)
    ensures WithoutFirst(f, s) == s
    decreases |s|
  {
    if s != [] {
      NoFirstMatch(f, s[1..]);
    }
  }

  lemma {:induction false} WithoutSplits<T>(f: T -> bool, s: seq<T>, t: seq<T>)
    ensures Without(f, s + t) == Without(f, s) + Without(f, t)
    decreases |t|
  {
    if t == [] {
      assert s + t == s;
    } else {
      var n := |t| - 1;
      assert (s + t)[..|s + t| - 1] == s + t[..n];
      WithoutSplits(f, s, t[..n]);
    }
  }

  lemma WithoutAt<T>(f: T -> bool, s: seq<T>, i: nat)
    requires i < |s| && f(s[i])
    ensures Without(f, s) == Without(f, s[..i]) + Without(f, s[i + 1..])
  {
    var head := s[..i + 1];
    assert Without(f, head) == Without(f, s[..i]) by {
      assert head[..i] == s[..i] && head[i] == s[i];
    }
    hide Without;
    WithoutSplits(f, head, s[i + 1..]);
    assert s == head + s[i + 1..];
  }

  /** Where at most one entry matches, removing the first is removing all. */
  lemma {:induction false} OneMatchAtMost<T>(f: T -> bool, s: seq<T>)
    requires forall i, j :: 0 <= i < j < |s| ==> !(f(s[i]) && f(s[j]))
    ensures WithoutFirst(f, s) == Without(f, s)
  {
    if i :| 0 <= i < |s| && f(s[i]) {
      FirstMatchRemoved(f, s, i);
      WithoutAt(f, s, i);
      NothingToRemove(f, s[..i]);
      NothingToRemove(f, s[i + 1..]);
    } else {
      NoFirstMatch(f, s);
      NothingToRemove(f, s);
    }
  }

  /** `s` once the entries before `done` have been filtered. */
  function Partly<T>(f: T -> bool, s: seq<T>, done: nat): seq<T>
    requires done <= |s|
  {
    Without(f, s[..done]) + s[done..]
  }

  /** Where the first entry not looked at stands. */
  function Place<T>(f: T -> bool, s: seq<T>, done: nat): nat
    requires done <= |s|
  {
    |Without(f, s[..done])|
  }

  lemma PartlyFurther<T>(f: T -> bool, s: seq<T>, done: nat)
    requires done < |s|
    ensures var p, at := Partly(f, s, done), Place(f, s, done);
            && at < |p| && p[at] == s[done]
            && Partly(f, s, done + 1) == (if f(s[done]) then p[..at] + p[at + 1..] else p)
            && Place(f, s, done + 1) == if f(s[done]) then at else at + 1
  {
    assert s[..done + 1][..done] == s[..done];
  }

  lemma PartlyEnds<T>(f: T -> bool, s: seq<T>)
    ensures Partly(f, s, 0) == s && Place(f, s, 0) == 0 && Partly(f, s, |s|) == Without(f, s)
  {
    assert s[..|s|] == s;
  }

  lemma PartlyWithoutMatch<T>(f: T -> bool, s: seq<T>, done: nat)
    requires done <= |s| && NoMatch(f, s[..done])
    ensures Partly(f, s, done) == s
  {
    NothingToRemove(f, s[..done]);
  }

  /** A full sequence makes room by dropping its first. */
  function Pushed<T>(s: seq<T>, limit: nat, entry: T): seq<T> {
    (if |s| >= limit > 0 then s[1..] else s) + [entry]
  }

  class CacheSet<T> {
    const entries: array<Option<T>>
    const index: IndexMap

    ghost predicate Valid()
      reads this, index, index.map_, entries
    {
      && index.Valid() && entries.Length == index.map_.Length
      && entries as object != index.map_
      && Initialized()
    }

    /** No slot is read before it was written. */
    ghost predicate Initialized()
      requires index.Valid() && entries.Length == index.map_.Length
      reads this, index, index.map_, entries
    {
      forall i :: 0 <= i < index.size ==> index.Used()[i] < entries.Length && entries[index.Used()[i]].Some?
    }

    ghost function Contents(): (s: seq<T>)
      requires Valid()
      reads this, index, index.map_, entries
      ensures |s| == index.size
    {
      seq(index.size, i requires 0 <= i < index.size && Valid() reads this, index, index.map_, entries =>
        entries[index.Used()[i]].value)
    }

    ghost function Limit(): nat
      reads this
    {
      entries.Length
    }

    ghost function Repr(): set<object>
      reads this
    {
      {index, index.map_, entries}
    }

    constructor (n: Byte)
      requires 0 < n
      ensures Valid() && fresh(Repr()) && Limit() == n && Contents() == []
    {
      index := new IndexMap(n);
      entries := new Option<T>[n](_ => None);
    }

    predicate Full()
      reads this, index
    {
      index.Full()
    }

    /** Keeps every entry but the oldest of a full cache. */
    method Push(entry: T)
      requires Valid()
      modifies index, entries
      ensures Valid() && Contents() == Pushed(old(Contents()), Limit(), entry)
      ensures Contents() == (if |old(Contents())| == Limit() then old(Contents())[1..] else old(Contents())) + [entry]
    {
      hide Permutation, Ring;
      var slot := index.Push();
      ghost var used := index.Used();
      ghost var others := used[..|used| - 1];
      assert forall i :: 0 <= i < |others| ==> others[i] != slot;
      entries[slot] := Some(entry);
      assert index.Used() == used;
    }

    /** Deletes exactly the `at`-th. */
    method Remove(at: Byte)
      requires Valid() && at < index.size
      modifies index, index.map_
      ensures Valid() && Contents() == old(Contents())[..at] + old(Contents())[at + 1..]
    {
      index.Remove(at);
    }

    method Get(at: Byte) returns (entry: Option<T>)
      requires Valid()
      ensures entry == if at < |Contents()| then Some(Contents()[at]) else None
    {
      if at >= index.size {
        return None;
      }
      var slot := index.Resolve(at);
      return Some(entries[slot].value);
    }

    method FindIndex(f: T -> bool) returns (found: Option<Byte>)
      requires Valid()
      ensures found.None? ==> NoMatch(f, Contents())
      ensures found.Some? ==>
                && found.value < |Contents()| && f(Contents()[found.value])
                && NoMatch(f, Contents()[..found.value])
    {
      hide Contents, Initialized, IndexMap.Used, IndexMap.Order, Permutation;
      var at := 0;
      while at < index.size
        invariant at <= index.size && NoMatch(f, Contents()[..at])
      {
        var entry := Get(at);
        if f(entry.value) {
          return Some(at);
        }
        at := at + 1;
      }
      return None;
    }

    method GetIf(f: T -> bool) returns (found: Option<T>)
      requires Valid()
      ensures found.None? ==> NoMatch(f, Contents())
      ensures found.Some? ==>
                exists i :: && 0 <= i < |Contents()| && found.value == Contents()[i] && f(Contents()[i])
                            && NoMatch(f, Contents()[..i])
    {
      hide Contents, Initialized, IndexMap.Used, IndexMap.Order, Permutation;
      var at := 0;
      while at < index.size
        invariant at <= index.size && NoMatch(f, Contents()[..at])
      {
        var entry := Get(at);
        if f(entry.value) {
          return entry;
        }
        at := at + 1;
      }
      return None;
    }

    /** With `once` the first match only. */
    method RemoveIf(f: T -> bool, once: bool)
      requires Valid()
      modifies index, index.map_
      ensures Valid()
      ensures Contents() == if once then WithoutFirst(f, old(Contents())) else Without(f, old(Contents()))
    {
      hide Partly, Place, Without, WithoutFirst, Contents, Initialized, IndexMap.Used, IndexMap.Order, Permutation;
      ghost var was, done := Contents(), 0;
      PartlyEnds(f, was);
      var at: Byte := 0;
      while at < index.size
        invariant Valid() && at <= index.size && done <= |was|
        invariant Contents() == Partly(f, was, done) && at == Place(f, was, done)
        invariant |was| - done == index.size - at
        invariant once ==> NoMatch(f, was[..done])
        decreases |was| - done
      {
        PartlyFurther(f, was, done);
        if once {
          PartlyWithoutMatch(f, was, done);
        }
        var entry := Get(at);
        if f(entry.value) {
          Remove(at);
          if once {
            FirstMatchRemoved(f, was, done);
            return;
          }
        } else {
          at := at + 1;
        }
        done := done + 1;
      }
      if once {
        PartlyWithoutMatch(f, was, |was|);
        NoFirstMatch(f, was);
      }
    }
  }
}
