/** The bounded store of the proof cache, least recently used entries last (cmd/pensiero/cache.go). */
module LruCache {
  import opened Options

  /** What the reasoner answered. */
  datatype Answer = Answer(text: string)

  datatype Entry = Entry(key: string, value: Answer, bytes: nat)

  datatype Limits = Limits(maxEntries: nat, maxBytes: nat)

  function Sum(q: seq<Entry>): nat {
    if q == [] then 0 else Sum(q[..|q| - 1]) + q[|q| - 1].bytes
  }

  ghost predicate DistinctKeys(q: seq<Entry>) {
    forall i, j | 0 <= i < j < |q| :: q[i].key != q[j].key
  }

  function Without(q: seq<Entry>, key: string): seq<Entry> {
    if q == [] then []
    else Without(q[..|q| - 1], key) + if q[|q| - 1].key == key then [] else [q[|q| - 1]]
  }

  predicate Fits(q: seq<Entry>, lim: Limits) {
    |q| <= lim.maxEntries && Sum(q) <= lim.maxBytes
  }

  /** What stays of the entries, most recently used first: as many from the front as fit. */
  function Kept(q: seq<Entry>, lim: Limits): seq<Entry> {
    if q == [] || Fits(q, lim) then q else Kept(q[..|q| - 1], lim)
  }

  function Inserted(q: seq<Entry>, e: Entry, lim: Limits): seq<Entry> {
    Kept([e] + Without(q, e.key), lim)
  }

  // ------------------------------------------------------------------ what that means

  lemma {:induction false} SumOfPrefix(q: seq<Entry>, n: nat)
    requires n <= |q|
    ensures Sum(q[..n]) <= Sum(q)
    decreases |q|
  {
    if n < |q| {
      assert q[..|q| - 1][..n] == q[..n];
      SumOfPrefix(q[..|q| - 1], n);
    } else {
      assert q[..n] == q;
    }
  }

  /** The entries that stay are a prefix that fits, and no longer prefix does. */
  lemma {:induction false} KeptIsLongest(q: seq<Entry>, lim: Limits)
    ensures Kept(q, lim) <= q && Fits(Kept(q, lim), lim)
    ensures forall n: nat | |Kept(q, lim)| < n <= |q| :: !Fits(q[..n], lim)
    decreases |q|
  {
    if q == [] {
      assert Sum(q) == 0;
    } else if Fits(q, lim) {
    } else {
      var init := q[..|q| - 1];
      KeptIsLongest(init, lim);
      forall n: nat | |Kept(q, lim)| < n <= |q| ensures !Fits(q[..n], lim) {
        if n < |q| {
          assert init[..n] == q[..n];
        } else {
          assert q[..n] == q;
        }
      }
    }
  }

  /** An entry that is too large by itself leaves nothing behind. */
  lemma OversizedEmpties(q: seq<Entry>, e: Entry, lim: Limits)
    requires e.bytes > lim.maxBytes
    ensures Inserted(q, e, lim) == []
  {
    var all := [e] + Without(q, e.key);
    KeptIsLongest(all, lim);
    var kept := Kept(all, lim);
    if kept != [] {
      assert kept[..1] == [e] && [e][..0] == [];
      SumOfPrefix(kept, 1);
    }
  }

  lemma {:induction false} WithoutMembers(q: seq<Entry>, key: string)
    ensures forall e :: e in Without(q, key) <==> e in q && e.key != key
    ensures |Without(q, key)| <= |q|
    decreases |q|
  {
    if q != [] {
      assert q == q[..|q| - 1] + [q[|q| - 1]];
      WithoutMembers(q[..|q| - 1], key);
    }
  }

  lemma DistinctAppend(q: seq<Entry>, e: Entry)
    requires DistinctKeys(q) && forall x | x in q :: x.key != e.key
    ensures DistinctKeys(q + [e]) && DistinctKeys([e] + q)
  {
    forall i | 0 <= i < |q| ensures q[i].key != e.key {
      assert q[i] in q;
    }
  }

  lemma {:induction false} WithoutDistinct(q: seq<Entry>, key: string)
    requires DistinctKeys(q)
    ensures DistinctKeys(Without(q, key))
    decreases |q|
  {
    if q != [] {
      var init, last := q[..|q| - 1], q[|q| - 1];
      WithoutDistinct(init, key);
      WithoutMembers(init, key);
      if last.key != key {
        forall x | x in Without(init, key) ensures x.key != last.key {
          var i :| 0 <= i < |init| && init[i] == x;
          assert q[i].key != q[|q| - 1].key;
        }
        DistinctAppend(Without(init, key), last);
      }
    }
  }

  lemma {:induction false} WithoutAbsent(q: seq<Entry>, key: string)
    requires forall x | x in q :: x.key != key
    ensures Without(q, key) == q
    decreases |q|
  {
    if q != [] {
      assert q == q[..|q| - 1] + [q[|q| - 1]];
      WithoutAbsent(q[..|q| - 1], key);
    }
  }

  /** Taking out the one entry with the key takes out its size. */
  lemma {:induction false} WithoutSum(q: seq<Entry>, k: nat)
    requires DistinctKeys(q) && k < |q|
    ensures Sum(Without(q, q[k].key)) + q[k].bytes == Sum(q)
    decreases |q|
  {
    var init, last := q[..|q| - 1], q[|q| - 1];
    if k == |q| - 1 {
      forall x | x in init ensures x.key != last.key {
        var i :| 0 <= i < |init| && init[i] == x;
        assert q[i].key != last.key;
      }
      WithoutAbsent(init, last.key);
      assert init + [] == init;
    } else {
      WithoutSum(init, k);
      var w := Without(init, q[k].key);
      assert (w + [last])[..|w|] == w;
    }
  }

  lemma {:induction false} SumFront(e: Entry, q: seq<Entry>)
    ensures Sum([e] + q) == e.bytes + Sum(q)
    decreases |q|
  {
    if q == [] {
      assert [e] + q == [e] && [e][..0] == [];
    } else {
      assert ([e] + q)[..|q|] == [e] + q[..|q| - 1];
      SumFront(e, q[..|q| - 1]);
    }
  }

  lemma SizeWithout(q: seq<Entry>, e: Entry)
    requires DistinctKeys(q) && e in q
    ensures |Without(q, e.key)| + 1 == |q|
    decreases |q|
  {
    var init, last := q[..|q| - 1], q[|q| - 1];
    var k :| 0 <= k < |q| && q[k] == e;
    if last.key == e.key {
      forall x | x in init ensures x.key != e.key {
        var i :| 0 <= i < |init| && init[i] == x;
        assert q[i].key != q[|q| - 1].key;
      }
      WithoutAbsent(init, e.key);
    } else {
      assert init[k] == e;
      SizeWithout(init, e);
    }
  }

  /** The entries come in the order of last use, latest first. */
  ghost predicate InOrder(q: seq<Entry>, lastUse: map<string, nat>, clock: nat) {
    && (forall e | e in q :: e.key in lastUse && lastUse[e.key] < clock)
    && (forall i, j | 0 <= i < j < |q| :: q[j].key in lastUse && q[i].key in lastUse && lastUse[q[i].key] > lastUse[q[j].key])
  }

  lemma InitOrdered(q: seq<Entry>, lastUse: map<string, nat>, clock: nat)
    requires InOrder(q, lastUse, clock) && q != []
    ensures InOrder(q[..|q| - 1], lastUse, clock)
  {}

  lemma {:induction false} WithoutOrdered(q: seq<Entry>, key: string, lastUse: map<string, nat>, clock: nat)
    requires InOrder(q, lastUse, clock)
    ensures InOrder(Without(q, key), lastUse, clock)
    decreases |q|
  {
    if q != [] {
      var init, last := q[..|q| - 1], q[|q| - 1];
      InitOrdered(q, lastUse, clock);
      WithoutOrdered(init, key, lastUse, clock);
      WithoutMembers(init, key);
      forall x | x in Without(init, key) ensures lastUse[x.key] > lastUse[last.key] {
        var k :| 0 <= k < |init| && init[k] == x;
        assert q[k] == x && q[|q| - 1] == last;
      }
      if last.key != key {
        LastOrdered(Without(init, key), last, lastUse, clock);
      }
    }
  }

  lemma LastOrdered(w: seq<Entry>, last: Entry, lastUse: map<string, nat>, clock: nat)
    requires InOrder(w, lastUse, clock) && last.key in lastUse && lastUse[last.key] < clock
    requires forall x | x in w :: lastUse[x.key] > lastUse[last.key]
    ensures InOrder(w + [last], lastUse, clock)
  {
    forall i | 0 <= i < |w| ensures lastUse[w[i].key] > lastUse[last.key] {
      assert w[i] in w;
    }
  }

  lemma FrontOrdered(rest: seq<Entry>, e: Entry, lastUse: map<string, nat>, clock: nat)
    requires InOrder(rest, lastUse, clock) && forall x | x in rest :: x.key != e.key
    ensures InOrder([e] + rest, lastUse[e.key := clock], clock + 1)
  {
    forall i | 0 <= i < |rest| ensures rest[i].key != e.key {
      assert rest[i] in rest;
    }
  }

  /** What stays was used after what goes. */
  lemma PrefixIsLatest(q: seq<Entry>, n: nat, lastUse: map<string, nat>, clock: nat, kept: Entry, gone: Entry)
    requires InOrder(q, lastUse, clock) && n <= |q| && kept in q[..n] && gone in q && gone !in q[..n]
    ensures kept.key in lastUse && gone.key in lastUse && lastUse[kept.key] > lastUse[gone.key]
  {
    assert forall t | 0 <= t < n :: q[..n][t] == q[t] && q[t] in q[..n];
    var i :| 0 <= i < n && q[i] == kept;
    var j :| 0 <= j < |q| && q[j] == gone;
  }

  /** List and map hold the same entries, each key once. */
  ghost predicate Agree(q: seq<Entry>, entries: map<string, Entry>) {
    && DistinctKeys(q)
    && (forall e | e in q :: e.key in entries && entries[e.key] == e)
    && (forall k | k in entries :: entries[k].key == k && entries[k] in q)
  }

  lemma MembersBefore(q: seq<Entry>)
    requires q != []
    ensures forall e :: e in q <==> e in q[..|q| - 1] || e == q[|q| - 1]
  {
    assert q == q[..|q| - 1] + [q[|q| - 1]];
  }

  lemma LastKeyIsAlone(q: seq<Entry>)
    requires DistinctKeys(q) && q != []
    ensures DistinctKeys(q[..|q| - 1])
    ensures forall i | 0 <= i < |q| - 1 :: q[i].key != q[|q| - 1].key
  {}

  lemma DropLast(q: seq<Entry>, entries: map<string, Entry>)
    requires Agree(q, entries) && q != []
    ensures Agree(q[..|q| - 1], entries - {q[|q| - 1].key}) && q[|q| - 1].key in entries
    ensures Sum(q) == Sum(q[..|q| - 1]) + q[|q| - 1].bytes
  {
    hide DistinctKeys;
    MembersBefore(q);
    LastKeyIsAlone(q);
    var init, last := q[..|q| - 1], q[|q| - 1];
    assert last in q;
    forall e | e in init ensures e.key != last.key {
      var i :| 0 <= i < |init| && init[i] == e;
    }
  }

  lemma {:induction false} SameSize(q: seq<Entry>, entries: map<string, Entry>)
    requires Agree(q, entries)
    ensures |q| == |entries|
    decreases |q|
  {
    if q == [] {
      assert entries.Keys == {} && |entries| == |entries.Keys|;
    } else {
      DropLast(q, entries);
      var key := q[|q| - 1].key;
      SameSize(q[..|q| - 1], entries - {key});
      assert (entries - {key}).Keys == entries.Keys - {key};
      assert |entries| == |entries.Keys| && |entries - {key}| == |(entries - {key}).Keys|;
    }
  }

  /** Moving an entry to the front leaves the map as it is, and a new entry replaces the one with its key. */
  lemma FrontAgrees(q: seq<Entry>, entries: map<string, Entry>, e: Entry, front: seq<Entry>)
    requires Agree(q, entries) && DistinctKeys(front)
    requires forall x :: x in front <==> x == e || (x in q && x.key != e.key)
    ensures Agree(front, entries[e.key := e])
  {}

  lemma FrontIsRight(q: seq<Entry>, entries: map<string, Entry>, e: Entry, lastUse: map<string, nat>, clock: nat)
    requires Agree(q, entries) && InOrder(q, lastUse, clock)
    ensures InOrder([e] + Without(q, e.key), lastUse[e.key := clock], clock + 1)
    ensures Agree([e] + Without(q, e.key), entries[e.key := e])
    ensures Sum([e] + Without(q, e.key)) == e.bytes + Sum(Without(q, e.key))
    ensures forall x :: x in [e] + Without(q, e.key) <==> x == e || (x in q && x.key != e.key)
  {
    hide Without, InOrder, Sum, DistinctKeys;
    var rest := Without(q, e.key);
    WithoutMembers(q, e.key);
    WithoutDistinct(q, e.key);
    DistinctAppend(rest, e);
    SumFront(e, rest);
    WithoutOrdered(q, e.key, lastUse, clock);
    FrontOrdered(rest, e, lastUse, clock);
    FrontAgrees(q, entries, e, [e] + rest);
  }

  lemma KeptFits(q: seq<Entry>, lim: Limits)
    ensures Fits(q, lim) || q == [] ==> Kept(q, lim) == q
    ensures q != [] && !Fits(q, lim) ==> Kept(q, lim) == Kept(q[..|q| - 1], lim)
  {}

  // ------------------------------------------------------------------ the cache

  class Cache {
    const lim: Limits
    var lru: seq<Entry>
    var entries: map<string, Entry>
    var bytes: nat
    // When each key was used last.
    ghost var lastUse: map<string, nat>
    ghost var clock: nat

    /** List and map hold the same entries, each key once, and the size is theirs. */
    ghost predicate Consistent()
      reads this
    {
      Agree(lru, entries) && bytes == Sum(lru)
    }

    /** The list is in the order of last use. */
    ghost predicate Ordered()
      reads this
    {
      InOrder(lru, lastUse, clock)
    }

    ghost predicate Valid()
      reads this
    {
      Consistent() && Ordered() && Fits(lru, lim)
    }

    constructor (lim: Limits)
      ensures Valid() && lru == [] && this.lim == lim
    {
      this.lim, lru, entries, bytes, lastUse, clock := lim, [], map[], 0, map[], 0;
    }

    ghost method Touch(key: string)
      modifies this`lastUse, this`clock
      ensures lastUse == old(lastUse)[key := old(clock)] && clock == old(clock) + 1
    {
      lastUse, clock := lastUse[key := clock], clock + 1;
    }

    /** Put an entry in front of all others, in place of one with its key. */
    method ToFront(e: Entry)
      requires Agree(lru, entries) && Ordered()
      modifies this`lru, this`entries, this`lastUse, this`clock
      ensures lru == [e] + Without(old(lru), e.key) && Ordered()
      ensures Agree(lru, entries) && entries == old(entries)[e.key := e]
      ensures Sum(lru) == e.bytes + Sum(Without(old(lru), e.key))
      ensures forall x :: x in lru <==> x == e || (x in old(lru) && x.key != e.key)
    {
      hide Without, InOrder, Sum, DistinctKeys, Agree;
      FrontIsRight(lru, entries, e, lastUse, clock);
      lru, entries := [e] + Without(lru, e.key), entries[e.key := e];
      Touch(e.key);
    }

    /** Find an entry and make it the most recently used. */
    method Lookup(key: string) returns (r: Option<Answer>)
      requires Valid()
      modifies this
      ensures Valid() && entries == old(entries) && bytes == old(bytes)
      ensures r.Some? <==> key in old(entries)
      ensures r.Some? ==> r.value == old(entries)[key].value && lru == [old(entries)[key]] + Without(old(lru), key)
      ensures r.None? ==> lru == old(lru)
    {
      if key !in entries {
        return None;
      }
      var e := entries[key];
      ghost var k :| 0 <= k < |lru| && lru[k] == e;
      WithoutSum(lru, k);
      SizeWithout(lru, e);
      ToFront(e);
      assert entries == old(entries);
      return Some(e.value);
    }

    /** The size of the entry that is about to be replaced. */
    method ReplacedSize(key: string) returns (size: nat)
      requires Consistent()
      ensures size <= bytes && bytes - size == Sum(Without(lru, key))
    {
      if key in entries {
        ghost var k :| 0 <= k < |lru| && lru[k] == entries[key];
        WithoutSum(lru, k);
        return entries[key].bytes;
      }
      WithoutAbsent(lru, key);
      return 0;
    }

    /** Drop entries from the back until both bounds hold. */
    method Evict()
      requires Consistent() && Ordered()
      modifies this`lru, this`entries, this`bytes
      ensures Valid() && lru == Kept(old(lru), lim) && lru <= old(lru)
    {
      hide InOrder, Sum, DistinctKeys, Kept, Agree;
      ghost var all := lru;
      while |entries| > lim.maxEntries || bytes > lim.maxBytes
        invariant Consistent() && Ordered() && Kept(lru, lim) == Kept(all, lim) && lru <= all
        decreases |lru|
      {
        SameSize(lru, entries);
        KeptFits(lru, lim);
        EmptyFits(lim);
        if lru == [] {
          break;
        }
        var evicted := lru[|lru| - 1];
        DropLast(lru, entries);
        InitOrdered(lru, lastUse, clock);
        entries := entries - {evicted.key};
        bytes := bytes - evicted.bytes;
        lru := lru[..|lru| - 1];
      }
      SameSize(lru, entries);
      KeptFits(lru, lim);
    }

    /** Put in a new entry in front, in place of one with its key; what does not fit any more, oldest first, goes. */
    method Insert(key: string, value: Answer, size: nat)
      requires Valid()
      modifies this
      ensures Valid() && lru == Inserted(old(lru), Entry(key, value, size), lim)
      ensures forall kept, gone | kept in lru && gone in old(lru) && gone.key != key && gone !in lru ::
                kept.key in lastUse && gone.key in lastUse && lastUse[kept.key] > lastUse[gone.key]
    {
      hide Without, InOrder, Sum, DistinctKeys, Kept, Agree, Fits;
      var e := Entry(key, value, size);
      var replaced := ReplacedSize(key);
      bytes := bytes - replaced;
      ToFront(e);
      bytes := bytes + size;
      ghost var all := lru;
      Evict();
      forall kept, gone | kept in lru && gone in old(lru) && gone.key != key && gone !in lru
        ensures kept.key in lastUse && gone.key in lastUse && lastUse[kept.key] > lastUse[gone.key]
      {
        assert lru == all[..|lru|];
        PrefixIsLatest(all, |lru|, lastUse, clock, kept, gone);
      }
    }
  }

  lemma EmptyFits(lim: Limits)
    ensures Fits([], lim)
  {}
}
