/** The list of recently heard stations: most recent first, at most 64. */
module RecentEntries {

  const ENTRIES_MAX: nat := 64

  datatype Entry<K, D> = Entry(key: K, data: D)

  function Keys<K, D>(entries: seq<Entry<K, D>>): (ks: seq<K>)
    ensures |ks| == |entries|
  {
    seq(|entries|, i requires 0 <= i < |entries| => entries[i].key)
  }

  // Specification: distinct keys by last occurrence

  function Without<K(==)>(ks: seq<K>, k: K): seq<K> {
    if ks == [] then [] else (if ks[0] == k then [] else [ks[0]]) + Without(ks[1..], k)
  }

  /** The distinct elements of the stream, the one heard last first. */
  function MostRecent<K(==)>(stream: seq<K>): seq<K> {
    if stream == [] then []
    else
      var k := stream[|stream| - 1];
      [k] + Without(MostRecent(stream[..|stream| - 1]), k)
  }

  function Newest<T>(ks: seq<T>, max: nat): seq<T> { if |ks| <= max then ks else ks[..max] }

  /** The position of the last occurrence of a key in the stream. */
  function LastHeard<K(==)>(stream: seq<K>, k: K): (i: nat)
    requires k in stream
    ensures i < |stream| && stream[i] == k && k !in stream[i + 1..]
  {
    if stream[|stream| - 1] == k then |stream| - 1
    else
      assert stream == stream[..|stream| - 1] + [stream[|stream| - 1]];
      var i := LastHeard(stream[..|stream| - 1], k);
      assert stream[i + 1..] == stream[..|stream| - 1][i + 1..] + [stream[|stream| - 1]];
      i
  }

  lemma {:induction false} WithoutKeepsOrder<K>(ks: seq<K>, k: K)
    ensures forall x :: x in Without(ks, k) <==> x in ks && x != k
    ensures NoDuplicates(ks) ==> NoDuplicates(Without(ks, k))
  {
    if ks != [] {
      WithoutKeepsOrder(ks[1..], k);
      assert ks == [ks[0]] + ks[1..];
      assert Without(ks, k)[if ks[0] == k then 0 else 1..] == Without(ks[1..], k);
    }
  }

  predicate NoDuplicates<K(==)>(ks: seq<K>) {
    ks == [] || (ks[0] !in ks[1..] && NoDuplicates(ks[1..]))
  }

  /** Every key is followed only by keys that were heard before it. */
  predicate ByLastHeard<K(==)>(stream: seq<K>, ks: seq<K>)
    requires forall k :: k in ks ==> k in stream
  {
    ks == [] || ((forall k :: k in ks[1..] ==> LastHeard(stream, k) < LastHeard(stream, ks[0])) && ByLastHeard(stream, ks[1..]))
  }

  lemma {:induction false} WithoutStaysByLastHeard<K>(stream: seq<K>, ks: seq<K>, k: K)
    requires forall x :: x in ks ==> x in stream
    requires ByLastHeard(stream, ks)
    ensures (forall x :: x in Without(ks, k) ==> x in stream + [k]) && ByLastHeard(stream + [k], Without(ks, k))
  {
    if ks != [] {
      WithoutStaysByLastHeard(stream, ks[1..], k);
      var rest := Without(ks[1..], k);
      WithoutKeepsOrder(ks[1..], k);
      if ks[0] != k {
        assert Without(ks, k) == [ks[0]] + rest && ([ks[0]] + rest)[1..] == rest;
        forall x | x == ks[0] || x in rest ensures x in stream && x in stream + [k] && LastHeard(stream + [k], x) == LastHeard(stream, x) {
          LastHeardEarlier(stream, k, x);
        }
        hide LastHeard, Without;
      } else {
        assert Without(ks, k) == rest;
      }
    }
  }

  lemma LastHeardEarlier<K>(stream: seq<K>, k: K, x: K)
    requires x in stream && x != k
    ensures LastHeard(stream + [k], x) == LastHeard(stream, x)
  {
    assert (stream + [k])[..|stream|] == stream;
  }

  /** What `MostRecent` is: the keys of the stream, each once, the one heard last first. */
  lemma {:induction false} MostRecentIsByLastHeard<K>(stream: seq<K>)
    ensures NoDuplicates(MostRecent(stream))
    ensures forall k :: k in MostRecent(stream) <==> k in stream
    ensures ByLastHeard(stream, MostRecent(stream))
  {
    if stream != [] {
      var before, k := stream[..|stream| - 1], stream[|stream| - 1];
      assert stream == before + [k];
      MostRecentIsByLastHeard(before);
      var ks := MostRecent(before);
      WithoutKeepsOrder(ks, k);
      WithoutStaysByLastHeard(before, ks, k);
      assert ([k] + Without(ks, k))[1..] == Without(ks, k);
    }
  }

  // The list

  /** The position of the first entry with the key, or the end of the list. */
  method Find<K(==), D>(entries: seq<Entry<K, D>>, key: K) returns (i: nat)
    ensures i <= |entries| && key !in Keys(entries)[..i]
    ensures i < |entries| ==> entries[i].key == key
  {
    i := 0;
    while i < |entries| && entries[i].key != key
      invariant i <= |entries| && key !in Keys(entries)[..i]
    {
      assert Keys(entries)[..i + 1] == Keys(entries)[..i] + [entries[i].key];
      i := i + 1;
    }
  }

  /** The position of the first occurrence, or the length. */
  function IndexOf<K(==)>(ks: seq<K>, k: K): (i: nat)
    ensures i <= |ks| && k !in ks[..i] && (i < |ks| <==> k in ks)
    ensures i < |ks| ==> ks[i] == k
  {
    if ks == [] then 0 else if ks[0] == k then 0
    else
      var i := IndexOf(ks[1..], k);
      assert ks[..i + 1] == [ks[0]] + ks[1..][..i];
      i + 1
  }

  lemma OnlyIndex<K>(ks: seq<K>, k: K, i: nat)
    requires i <= |ks| && k !in ks[..i] && (i < |ks| ==> ks[i] == k)
    ensures i == IndexOf(ks, k)
  {
  }

  /** The list after a packet of the given station; `initial` is what a new entry starts with. */
  function AfterPacket<K(==), D>(before: seq<Entry<K, D>>, key: K, initial: D): seq<Entry<K, D>> {
    var i := IndexOf(Keys(before), key);
    if i < |before| then [before[i]] + before[..i] + before[i + 1..]
    else Newest([Entry(key, initial)] + before, ENTRIES_MAX)
  }

  class RecentEntryList<K(==), D> {
    var entries: seq<Entry<K, D>>
    ghost var heard: seq<K>

    /** The list is that of the stations heard so far, one per packet. */
    ghost predicate Valid()
      reads this
    {
      Keys(entries) == KeysAfter(heard)
    }

    constructor ()
      ensures Valid() && entries == [] && heard == []
    {
      entries, heard := [], [];
    }

    /** In every valid state the list holds the stations heard last, each once, the last one first. */
    lemma HoldsTheLastHeard()
      requires Valid()
      ensures Keys(entries) == Newest(MostRecent(heard), ENTRIES_MAX)
      ensures NoDuplicates(Keys(entries)) && |entries| <= ENTRIES_MAX
    {
      ListIsLeastRecentlyUsedCache(heard);
    }

    method TruncateEntries(entriesMax: nat)
      modifies this
      ensures entries == Newest(old(entries), entriesMax) && heard == old(heard)
    {
      while |entries| > entriesMax
        invariant entries == old(entries)[..|entries|] && |entries| <= |old(entries)|
        invariant |entries| >= entriesMax || entries == old(entries)
        invariant heard == old(heard)
      {
        entries := entries[..|entries| - 1];
      }
    }

    method OnPacket(key: K, initial: D) returns (front: Entry<K, D>)
      requires Valid()
      modifies this
      ensures Valid() && heard == old(heard) + [key]
      ensures entries == AfterPacket(old(entries), key, initial)
      ensures entries != [] && front == entries[0] && front.key == key
    {
      KeysOfAfterPacket(entries, key, initial);
      KeysAfterOneMore(heard, key);
      hide KeysAfter, KeyAfterPacket;
      var i := Find(entries, key);
      OnlyIndex(Keys(entries), key, i);
      if i != |entries| {
        entries := [entries[i]] + entries;
        entries := entries[..i + 1] + entries[i + 2..];
        assert entries == [old(entries)[i]] + old(entries)[..i] + old(entries)[i + 1..];
      } else {
        entries := [Entry(key, initial)] + entries;
        TruncateEntries(ENTRIES_MAX);
      }
      heard := heard + [key];
      front := entries[0];
    }

    /** What the caller does with the reference that `OnPacket` returns: it updates the data. */
    method UpdateFront(data: D)
      requires Valid() && entries != []
      modifies this
      ensures Valid() && heard == old(heard)
      ensures Keys(entries) == old(Keys(entries)) && entries[0].data == data && entries[1..] == old(entries[1..])
    {
      hide KeysAfter;
      entries := entries[0 := entries[0].(data := data)];
      assert Keys(entries) == old(Keys(entries));
    }

    /** The window of entries to display around the selected one; positions count from the front. */
    method RangeAround(item: nat, count: nat) returns (start: nat, end: nat)
      requires item <= |entries|
      ensures start <= item <= end <= |entries| && end - start <= count
      ensures item < |entries| && count >= 1 ==> item < end
      ensures start == if item < count / 2 then 0 else item - count / 2
      ensures end == |entries| || end - start == count
    {
      start, end := item, item;
      var i := 0;
      while start != 0 && i < count / 2
        invariant start + i == item && i <= count / 2
      {
        start := start - 1;
        i := i + 1;
      }
      while end != |entries| && i < count
        invariant item <= end <= |entries| && end - start == i <= count
      {
        end := end + 1;
        i := i + 1;
      }
    }
  }

  // The list is a least-recently-used cache

  /** The keys of the list after a stream of packets. */
  function KeysAfter<K(==)>(stream: seq<K>): seq<K> {
    if stream == [] then [] else KeyAfterPacket(KeysAfter(stream[..|stream| - 1]), stream[|stream| - 1])
  }

  function KeyAfterPacket<K(==)>(ks: seq<K>, key: K): seq<K> {
    var i := IndexOf(ks, key);
    if i < |ks| then [key] + ks[..i] + ks[i + 1..] else Newest([key] + ks, ENTRIES_MAX)
  }

  lemma KeysAfterOneMore<K>(stream: seq<K>, key: K)
    ensures KeysAfter(stream + [key]) == KeyAfterPacket(KeysAfter(stream), key)
  {
    assert (stream + [key])[..|stream|] == stream;
  }

  /** What a packet does to the keys does not depend on the data, whatever callers put there. */
  lemma KeysOfAfterPacket<K, D>(before: seq<Entry<K, D>>, key: K, initial: D)
    ensures Keys(AfterPacket(before, key, initial)) == KeyAfterPacket(Keys(before), key)
  {
    hide IndexOf, Keys;
    var i := IndexOf(Keys(before), key);
    if i < |before| {
      KeysOfMoved(before, i);
      assert Keys(before)[i] == key;
    } else {
      KeysOfNew(Entry(key, initial), before);
    }
  }

  lemma KeysOfMoved<K, D>(before: seq<Entry<K, D>>, i: nat)
    requires i < |before|
    ensures Keys([before[i]] + before[..i] + before[i + 1..]) == [before[i].key] + Keys(before)[..i] + Keys(before)[i + 1..]
    ensures Keys(before)[i] == before[i].key
  {
  }

  lemma KeysOfNew<K, D>(entry: Entry<K, D>, before: seq<Entry<K, D>>)
    ensures Keys(Newest([entry] + before, ENTRIES_MAX)) == Newest([entry.key] + Keys(before), ENTRIES_MAX)
  {
    assert Keys([entry] + before) == [entry.key] + Keys(before);
  }

  /** A station that is known comes to the front with its own data, and no entry gains, loses or
  changes anything. */
  lemma KnownEntryKeepsItsData<K, D>(before: seq<Entry<K, D>>, key: K, initial: D)
    requires key in Keys(before)
    ensures var after := AfterPacket(before, key, initial);
            && |after| >= 1 && after[0].key == key && after[0] in before && multiset(after) == multiset(before)
  {
    var i := IndexOf(Keys(before), key);
    assert before == before[..i] + [before[i]] + before[i + 1..];
    hide IndexOf;
  }

  /** A new one starts with what the caller gives it, before all others; of those the last is lost
  if there were 64. */
  lemma NewEntryComesFirst<K, D>(before: seq<Entry<K, D>>, key: K, initial: D)
    requires key !in Keys(before) && |before| <= 64
    ensures AfterPacket(before, key, initial) == [Entry(key, initial)] + if |before| < 64 then before else before[..63]
  {
    hide IndexOf;
  }

  lemma {:induction false} WithoutConcat<K>(a: seq<K>, b: seq<K>, k: K)
    ensures Without(a + b, k) == Without(a, k) + Without(b, k)
  {
    if a == [] {
      assert a + b == b;
    } else {
      assert (a + b)[1..] == a[1..] + b;
      WithoutConcat(a[1..], b, k);
    }
  }

  lemma {:induction false} WithoutAbsent<K>(ks: seq<K>, k: K)
    requires k !in ks
    ensures Without(ks, k) == ks
  {
    if ks != [] {
      WithoutAbsent(ks[1..], k);
    }
  }

  lemma DuplicateFreeHalves<K>(a: seq<K>, b: seq<K>, k: K)
    requires NoDuplicates(a + b) && k in a
    ensures k !in b
    decreases |a|
  {
    assert (a + b)[1..] == a[1..] + b;
    if a[0] != k {
      assert a == [a[0]] + a[1..];
      DuplicateFreeHalves(a[1..], b, k);
    }
  }

  lemma {:induction false} WithoutOnly<K>(a: seq<K>, b: seq<K>, k: K)
    requires k !in a && k !in b
    ensures Without(a + ([k] + b), k) == a + b
    decreases |a|
  {
    if a == [] {
      assert a + ([k] + b) == [k] + b && ([k] + b)[1..] == b;
      WithoutAbsent(b, k);
    } else {
      assert (a + ([k] + b))[1..] == a[1..] + ([k] + b);
      WithoutOnly(a[1..], b, k);
    }
  }

  /** Moving the entry found at position i to the front is taking its key out and putting it first. */
  lemma MovedToFront<K>(ks: seq<K>, i: nat, k: K)
    requires NoDuplicates(ks) && i < |ks| && ks[i] == k
    ensures [k] + ks[..i] + ks[i + 1..] == [k] + Without(ks, k)
    ensures |Without(ks, k)| == |ks| - 1
  {
    hide *;
    var a, b := ks[..i], ks[i + 1..];
    assert ks == a + ([k] + b) && ks == (a + [k]) + b;
    DuplicateFreeHalves(a + [k], b, k);
    if k in a { DuplicateFreeHalves(a, [k] + b, k); }
    WithoutOnly(a, b, k);
  }

  lemma KnownKeyMoves<K>(n: seq<K>, tail: seq<K>, key: K)
    requires NoDuplicates(n + tail) && key in n
    ensures KeyAfterPacket(n, key) == [key] + Without(n, key) && |Without(n, key)| == |n| - 1
    ensures Without(n + tail, key) == Without(n, key) + tail
  {
    assert KeyAfterPacket(n, key) == [key] + n[..IndexOf(n, key)] + n[IndexOf(n, key) + 1..];
    hide *;
    PrefixHasNoDuplicates(n, tail);
    MovedToFront(n, IndexOf(n, key), key);
    DuplicateFreeHalves(n, tail, key);
    WithoutAbsent(tail, key);
    WithoutConcat(n, tail, key);
  }

  lemma NewKeyEnters<K>(n: seq<K>, tail: seq<K>, key: K)
    requires key !in n
    ensures KeyAfterPacket(n, key) == Newest([key] + n, ENTRIES_MAX)
    ensures Without(n + tail, key) == n + Without(tail, key)
    ensures tail == [] ==> Without(tail, key) == []
  {
    hide Without;
    WithoutAbsent(n, key);
    WithoutConcat(n, tail, key);
    WithoutAbsent([], key);
  }

  lemma NewestIsPrefix<T>(ks: seq<T>, max: nat)
    ensures var n := Newest(ks, max);
            && |n| <= |ks| && ks == n + ks[|n|..] && |n| <= max && (|n| < max ==> ks[|n|..] == [])
  {
  }

  /** What comes after the first `max` does not count. */
  lemma NewestOfLonger<T>(k: T, ks: seq<T>, rest: seq<T>, max: nat)
    requires |ks| + 1 >= max || rest == []
    ensures Newest([k] + (ks + rest), max) == Newest([k] + ks, max)
    ensures |ks| + 1 <= max ==> Newest([k] + ks, max) == [k] + ks
  {
    assert [k] + (ks + rest) == ([k] + ks) + rest;
  }

  /** One packet keeps the list equal to the newest keys of the stream. */
  lemma PacketKeepsNewest<K>(ks: seq<K>, key: K)
    requires NoDuplicates(ks)
    ensures KeyAfterPacket(Newest(ks, ENTRIES_MAX), key) == Newest([key] + Without(ks, key), ENTRIES_MAX)
  {
    hide *;
    var n := Newest(ks, ENTRIES_MAX);
    NewestIsPrefix(ks, ENTRIES_MAX);
    var tail := ks[|n|..];
    if key in n {
      KnownKeyMoves(n, tail, key);
      NewestOfLonger(key, Without(n, key), tail, ENTRIES_MAX);
    } else {
      NewKeyEnters(n, tail, key);
      NewestOfLonger(key, n, Without(tail, key), ENTRIES_MAX);
    }
  }

  lemma {:induction false} PrefixHasNoDuplicates<K>(a: seq<K>, b: seq<K>)
    requires NoDuplicates(a + b)
    ensures NoDuplicates(a)
  {
    if a != [] {
      assert (a + b)[1..] == a[1..] + b;
      PrefixHasNoDuplicates(a[1..], b);
    }
  }

  /** After any stream of packets the keys of the list are the first 64 of the distinct keys,
  ordered by last occurrence, each once. */
  lemma {:induction false} ListIsLeastRecentlyUsedCache<K>(stream: seq<K>)
    ensures KeysAfter(stream) == Newest(MostRecent(stream), ENTRIES_MAX)
    ensures NoDuplicates(KeysAfter(stream)) && |KeysAfter(stream)| <= ENTRIES_MAX
  {
    if stream == [] {
      NothingHeard<K>();
    } else {
      hide *;
      var earlier, key := stream[..|stream| - 1], stream[|stream| - 1];
      ListIsLeastRecentlyUsedCache(earlier);
      MostRecentIsByLastHeard(earlier);
      PacketKeepsNewest(MostRecent(earlier), key);
      MostRecentOneMore(earlier, key);
      KeysAfterOneMore(earlier, key);
      assert stream == earlier + [key];
    }
    hide *;
    MostRecentIsByLastHeard(stream);
    var all := MostRecent(stream);
    var n := Newest(all, ENTRIES_MAX);
    NewestIsPrefix(all, ENTRIES_MAX);
    PrefixHasNoDuplicates(n, all[|n|..]);
  }

  lemma NothingHeard<K>()
    ensures KeysAfter<K>([]) == Newest(MostRecent<K>([]), ENTRIES_MAX) == []
  {
  }

  lemma MostRecentOneMore<K>(stream: seq<K>, key: K)
    ensures MostRecent(stream + [key]) == [key] + Without(MostRecent(stream), key)
  {
    assert (stream + [key])[..|stream|] == stream;
  }
}
