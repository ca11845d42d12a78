/** The block keys of pin/bbtrace.cpp and ordered search with them. */
module BlockKeys {
  import opened Options

  /** Addresses are 64-bit words. */
  const WORD := 0x1_0000_0000_0000_0000

  /** First and last instruction address of a block, and its size in bytes. */
  datatype Key = Key(start: nat, end: nat, size: nat)

  /** _start - _end == 1, in unsigned arithmetic. */
  predicate IsPoint(k: Key) {
    (k.start - k.end) % WORD == 1
  }

  /** operator< */
  predicate Less(p1: Key, p2: Key) {
    if IsPoint(p1) then p1.start < p2.start
    else if IsPoint(p2) then p1.end <= p2.start
    else if p1.start == p2.start then p1.end < p2.end
    else p1.start < p2.start
  }

  /** What ordered containers take for equality. */
  predicate Equivalent(p1: Key, p2: Key) {
    !Less(p1, p2) && !Less(p2, p1)
  }

  predicate Contains(k: Key, address: nat) {
    k.start <= address <= k.end
  }

  /** On block keys the order is a strict weak one, and its equivalence ignores only the size. */
  lemma BlockKeysAreOrdered(a: Key, b: Key, c: Key)
    requires !IsPoint(a) && !IsPoint(b) && !IsPoint(c)
    ensures !Less(a, a)
    ensures Less(a, b) && Less(b, c) ==> Less(a, c)
    ensures Equivalent(a, b) && Equivalent(b, c) ==> Equivalent(a, c)
    ensures Equivalent(a, b) <==> a.start == b.start && a.end == b.end
  {
  }

  function PointAt(address: nat): Key
    requires address < WORD
  {
    Key(address, (address - 1) % WORD, 0)
  }

  /** With point keys in play equivalence stops being transitive exactly where a block holds two
      different points: both are equivalent to the block, but not to each other. */
  lemma PointsBreakTheOrder(k: Key, a: nat, b: nat)
    requires !IsPoint(k) && a < WORD && b < WORD
    ensures Equivalent(PointAt(a), k) && Equivalent(k, PointAt(b)) && !Equivalent(PointAt(a), PointAt(b)) <==>
            a != b && k.start <= a < k.end && k.start <= b < k.end
  {
    PointMeaning(k, a);
    PointMeaning(k, b);
  }

  // ---------------------------------------------------------------- ordered search

  ghost predicate Sorted(keys: seq<Key>) {
    forall i, j :: 0 <= i < j < |keys| ==> Less(keys[i], keys[j])
  }

  /** The keys less than k come first and those k is less than come last: all an ordered
      search needs. */
  ghost predicate Partitioned(keys: seq<Key>, k: Key) {
    && (forall i, j :: 0 <= i < j < |keys| && Less(keys[j], k) ==> Less(keys[i], k))
    && (forall i, j :: 0 <= i < j < |keys| && Less(k, keys[i]) ==> Less(k, keys[j]))
    && (forall i :: 0 <= i < |keys| ==> !(Less(keys[i], k) && Less(k, keys[i])))
  }

  /** Where an ordered container puts k: after all keys less than it. */
  method LowerBound(keys: seq<Key>, k: Key) returns (i: nat)
    requires Partitioned(keys, k)
    ensures i <= |keys|
    ensures forall j :: 0 <= j < i ==> Less(keys[j], k)
    ensures forall j :: i <= j < |keys| ==> !Less(keys[j], k)
  {
    i := 0;
    var hi := |keys|;
    while i < hi
      invariant i <= hi <= |keys|
      invariant forall j :: 0 <= j < i ==> Less(keys[j], k)
      invariant forall j :: hi <= j < |keys| ==> !Less(keys[j], k)
    {
      var mid := (i + hi) / 2;
      if Less(keys[mid], k) {
        i := mid + 1;
      } else {
        hi := mid;
      }
    }
  }

  /** find: an equivalent key, or None when there is none. */
  method Find(keys: seq<Key>, k: Key) returns (r: Option<nat>)
    requires Partitioned(keys, k)
    ensures r.Some? ==> r.value < |keys| && Equivalent(keys[r.value], k)
    ensures r.None? ==> forall i :: 0 <= i < |keys| ==> !Equivalent(keys[i], k)
  {
    var i := LowerBound(keys, k);
    if i < |keys| && !Less(k, keys[i]) {
      return Some(i);
    }
    return None;
  }

  lemma BlockKeyPartitions(keys: seq<Key>, k: Key)
    requires Sorted(keys) && !IsPoint(k) && forall i :: 0 <= i < |keys| ==> !IsPoint(keys[i])
    ensures Partitioned(keys, k)
  {
    forall i, j | 0 <= i < j < |keys|
      ensures Less(keys[j], k) ==> Less(keys[i], k)
      ensures Less(k, keys[i]) ==> Less(k, keys[j])
    {
      assert Less(keys[i], keys[j]);
      BlockKeysAreOrdered(keys[i], keys[j], k);
      BlockKeysAreOrdered(k, keys[i], keys[j]);
    }
  }

  /** Blocks in address order that do not overlap. */
  ghost predicate Disjoint(keys: seq<Key>) {
    && (forall i :: 0 <= i < |keys| ==> keys[i].start <= keys[i].end < WORD && !IsPoint(keys[i]))
    && (forall i, j :: 0 <= i < j < |keys| ==> keys[i].end < keys[j].start)
  }

  lemma DisjointBlocksAreSorted(keys: seq<Key>)
    requires Disjoint(keys)
    ensures Sorted(keys)
  {
    forall i, j | 0 <= i < j < |keys| ensures Less(keys[i], keys[j]) {
      assert keys[i].end < keys[j].start;
    }
  }

  /** Block keys in order whose ends ascend too, though blocks may overlap. */
  ghost predicate Searchable(keys: seq<Key>) {
    && Sorted(keys)
    && (forall i :: 0 <= i < |keys| ==> keys[i].start <= keys[i].end < WORD && !IsPoint(keys[i]))
    && forall i, j :: 0 <= i < j < |keys| ==> keys[i].end <= keys[j].end
  }

  lemma DisjointBlocksAreSearchable(keys: seq<Key>)
    requires Disjoint(keys)
    ensures Searchable(keys)
  {
    hide Less;
    DisjointBlocksAreSorted(keys);
    forall i, j | 0 <= i < j < |keys| ensures keys[i].end <= keys[j].end {
      assert keys[i].end < keys[j].start;
    }
  }

  /** Every point key cuts a list of block keys in two, so that ordered search with points works, if
      and only if the ends of the blocks ascend. */
  lemma PointSearchExactly(keys: seq<Key>)
    requires Sorted(keys) && forall i :: 0 <= i < |keys| ==> keys[i].start <= keys[i].end < WORD && !IsPoint(keys[i])
    ensures (forall address: nat :: address < WORD ==> Partitioned(keys, PointAt(address))) <==> Searchable(keys)
  {
    if Searchable(keys) {
      forall address: nat | address < WORD ensures Partitioned(keys, PointAt(address)) {
        PointPartitions(keys, address);
      }
    } else {
      var i, j :| 0 <= i < j < |keys| && keys[i].end > keys[j].end;
      var point := PointAt(keys[j].end);
      PointMeaning(keys[i], keys[j].end);
      PointMeaning(keys[j], keys[j].end);
      hide Less, Sorted, IsPoint;
      assert Less(keys[j], point) && !Less(keys[i], point);
    }
  }

  /** Then search finds a block whose address range [start, end) holds the point, or finds out that
      there is none. */
  method FindPoint(keys: seq<Key>, address: nat) returns (r: Option<nat>)
    requires Searchable(keys) && address < WORD
    ensures r.Some? ==> r.value < |keys| && keys[r.value].start <= address < keys[r.value].end
    ensures r.None? ==> forall i :: 0 <= i < |keys| ==> !(keys[i].start <= address < keys[i].end)
  {
    PointPartitions(keys, address);
    r := Find(keys, PointAt(address));
    forall i | 0 <= i < |keys| {
      PointMeaning(keys[i], address);
    }
  }

  lemma PointMeaning(k: Key, address: nat)
    requires address < WORD && !IsPoint(k)
    ensures IsPoint(PointAt(address))
    ensures Less(k, PointAt(address)) <==> k.end <= address
    ensures Less(PointAt(address), k) <==> address < k.start
    ensures Equivalent(k, PointAt(address)) <==> k.start <= address < k.end
  {
    assert (address - (address - 1) % WORD) % WORD == 1;
  }

  lemma PointPartitions(keys: seq<Key>, address: nat)
    requires Searchable(keys) && address < WORD
    ensures Partitioned(keys, PointAt(address))
  {
    forall i, j | 0 <= i < j < |keys| ensures keys[i].start <= keys[j].start {
      assert Less(keys[i], keys[j]);
    }
    hide Less;
    forall i | 0 <= i < |keys|
      ensures Less(keys[i], PointAt(address)) <==> keys[i].end <= address
      ensures Less(PointAt(address), keys[i]) <==> address < keys[i].start
    {
      PointMeaning(keys[i], address);
    }
  }

  /** At most one block is found: the search and `Contains` disagree exactly on a block's last
      instruction address. */
  lemma PointFindsOneBlock(keys: seq<Key>, address: nat, i: nat, j: nat)
    requires Disjoint(keys) && address < WORD && i < |keys| && j < |keys|
    ensures Equivalent(keys[i], PointAt(address)) && Equivalent(keys[j], PointAt(address)) ==> i == j
    ensures Contains(keys[i], address) && !Equivalent(keys[i], PointAt(address)) <==> address == keys[i].end
  {
    hide Less;
    PointMeaning(keys[i], address);
    PointMeaning(keys[j], address);
  }
}
