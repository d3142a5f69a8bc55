/** The pool of demuxer/muxer slot indices (`_free_pad_indices`) and the
    ownership invariant it keeps with the indices held by registered sources.
    `slots` maps each registered source id to its `pad_idx`. */
module SlotPool {
  import opened Types

  /** `list(range(n))`: the pool right after the demuxer pads are allocated. */
  function InitialPool(n: nat): (r: seq<nat>)
    ensures |r| == n
    ensures forall i :: 0 <= i < n ==> r[i] == i
  {
    seq(n, i => i)
  }

  /** The set `[0, n)`. */
  function SlotRange(n: nat): (r: set<nat>)
    ensures forall i: nat :: i in r <==> i < n
  {
    if n == 0 then {} else SlotRange(n - 1) + {n - 1}
  }

  predicate NoDuplicates(s: seq<nat>) {
    forall i, j :: 0 <= i < j < |s| ==> s[i] != s[j]
  }

  /** Indices held by registered sources. */
  function HeldSet(slots: map<string, Option<nat>>): set<nat> {
    set k | k in slots && slots[k].Some? :: slots[k].value
  }

  /** Number of occurrences of `x` in `s`. */
  function Occurrences(s: seq<nat>, x: nat): nat {
    multiset(s)[x]
  }

  /** The ownership invariant: the free indices have no repeats, the free and
      the held indices are disjoint, no index is held by two sources, and
      together they make up exactly `[0, n)`. */
  predicate PoolPartition(free: seq<nat>, slots: map<string, Option<nat>>, n: nat) {
    && NoDuplicates(free)
    && (forall j :: 0 <= j < |free| ==> free[j] < n)
    && (forall k :: k in slots && slots[k].Some? ==> slots[k].value < n && slots[k].value !in free)
    && (forall k1, k2 :: k1 in slots && k2 in slots && k1 != k2 && slots[k1].Some? ==> slots[k1] != slots[k2])
    && (forall i: nat :: i < n ==> i in free || i in HeldSet(slots))
  }

  lemma InitialPartition(n: nat)
    ensures PoolPartition(InitialPool(n), map[], n)
  {
    var free := InitialPool(n);
    forall i: nat | i < n ensures i in free {
      assert free[i] == i;
    }
  }

  /** Registering a source that holds no index keeps the invariant. */
  lemma RegisterPreservesPartition(free: seq<nat>, slots: map<string, Option<nat>>, n: nat, k: string)
    requires PoolPartition(free, slots, n)
    requires k !in slots || slots[k].None?
    ensures PoolPartition(free, slots[k := None], n)
    ensures HeldSet(slots[k := None]) == HeldSet(slots)
  {
    var slots' := slots[k := None];
    assert HeldSet(slots') == HeldSet(slots) by {
      forall i | i in HeldSet(slots) ensures i in HeldSet(slots') {
        var k' :| k' in slots && slots[k'].Some? && slots[k'].value == i;
        assert k' != k;
        assert slots'[k'] == slots[k'];
      }
    }
  }

  /** Admission: the head of the free list becomes the index of source `k`,
      which held none; the invariant is kept and `k` is the only holder. */
  lemma AcquirePreservesPartition(free: seq<nat>, slots: map<string, Option<nat>>, n: nat, k: string)
    requires PoolPartition(free, slots, n)
    requires free != []
    requires k !in slots || slots[k].None?
    ensures PoolPartition(free[1..], slots[k := Some(free[0])], n)
    ensures HeldSet(slots[k := Some(free[0])]) == HeldSet(slots) + {free[0]}
    ensures free[0] !in HeldSet(slots)
  {
    var h := free[0];
    var free', slots' := free[1..], slots[k := Some(h)];
    assert h !in free' by {
      forall j | 0 <= j < |free'| ensures free'[j] != h { assert free'[j] == free[j + 1]; }
    }
    assert h in free;
    assert HeldSet(slots') == HeldSet(slots) + {h} by {
      forall i | i in HeldSet(slots) ensures i in HeldSet(slots') {
        var k' :| k' in slots && slots[k'].Some? && slots[k'].value == i;
        assert k' != k;
        assert slots'[k'] == slots[k'];
      }
      assert slots'[k] == Some(h);
    }
    forall k1, k2 | k1 in slots' && k2 in slots' && k1 != k2 && slots'[k1].Some?
      ensures slots'[k1] != slots'[k2]
    {
      if k1 == k {
        assert slots[k2].Some? ==> slots[k2].value !in free;
      } else if k2 == k {
        assert slots[k1].value !in free;
      }
    }
    forall i: nat | i < n ensures i in free' || i in HeldSet(slots') {
      if i in free && i != h {
        var j :| 0 <= j < |free| && free[j] == i;
        assert j != 0;
        assert free'[j - 1] == i;
      }
    }
  }

  /** Output teardown: source `k` returns its index to the end of the free
      list and leaves the registry; the index is then free exactly once. */
  lemma ReleasePreservesPartition(free: seq<nat>, slots: map<string, Option<nat>>, n: nat, k: string)
    requires PoolPartition(free, slots, n)
    requires k in slots && slots[k].Some?
    ensures PoolPartition(free + [slots[k].value], slots - {k}, n)
    ensures HeldSet(slots - {k}) == HeldSet(slots) - {slots[k].value}
    ensures Occurrences(free + [slots[k].value], slots[k].value) == 1
  {
    var h := slots[k].value;
    var free', slots' := free + [h], slots - {k};
    assert HeldSet(slots') == HeldSet(slots) - {h} by {
      forall i | i in HeldSet(slots) && i != h ensures i in HeldSet(slots') {
        var k' :| k' in slots && slots[k'].Some? && slots[k'].value == i;
        assert k' != k;
        assert k' in slots' && slots'[k'] == slots[k'];
      }
      forall i | i in HeldSet(slots') ensures i != h {
        var k' :| k' in slots' && slots'[k'].Some? && slots'[k'].value == i;
        assert slots[k'] != slots[k];
      }
    }
    forall i, j | 0 <= i < j < |free'| ensures free'[i] != free'[j] {
      if j == |free| {
        assert free'[i] == free[i];
      }
    }
    forall i: nat | i < n ensures i in free' || i in HeldSet(slots') {
      if i in free {
        var j :| 0 <= j < |free| && free[j] == i;
        assert free'[j] == i;
      } else if i == h {
        assert free'[|free|] == h;
      }
    }
    assert multiset(free)[h] == 0;
    assert multiset(free') == multiset(free) + multiset{h};
  }

  /** The indices in a list, as a set. */
  function Elements(s: seq<nat>): set<nat> {
    set x | x in s
  }

  lemma {:induction false} DistinctCardinality(s: seq<nat>)
    requires NoDuplicates(s)
    ensures |Elements(s)| == |s|
  {
    if s != [] {
      var t := s[..|s| - 1];
      var last := s[|s| - 1];
      assert NoDuplicates(t);
      DistinctCardinality(t);
      assert Elements(s) == Elements(t) + {last} by {
        forall x | x in s ensures x in t || x == last {
          var j :| 0 <= j < |s| && s[j] == x;
          if j < |s| - 1 { assert t[j] == x; }
        }
        forall x | x in t ensures x in s {
          var j :| 0 <= j < |t| && t[j] == x;
          assert s[j] == x;
        }
        assert s[|s| - 1] in s;
      }
      assert last !in Elements(t) by {
        forall j | 0 <= j < |t| ensures t[j] != last { }
      }
    }
  }

  lemma {:induction false} RangeCardinality(n: nat)
    ensures |SlotRange(n)| == n
  {
    if n > 0 {
      var below := SlotRange(n - 1);
      RangeCardinality(n - 1);
      assert n - 1 !in below;
      assert SlotRange(n) == below + {n - 1};
    }
  }

  /** Counting the pool: free and held indices add up to `n`, so the free list
      is empty exactly when all `n` indices are held. */
  lemma PoolAccounting(free: seq<nat>, slots: map<string, Option<nat>>, n: nat)
    requires PoolPartition(free, slots, n)
    ensures |free| + |HeldSet(slots)| == n
    ensures free == [] <==> HeldSet(slots) == SlotRange(n)
  {
    var freeSet, held := Elements(free), HeldSet(slots);
    assert freeSet !! held by {
      forall i | i in held ensures i !in freeSet {
        var k :| k in slots && slots[k].Some? && slots[k].value == i;
      }
    }
    assert freeSet + held == SlotRange(n) by {
      forall i | i in freeSet ensures i < n {
        var j :| 0 <= j < |free| && free[j] == i;
      }
      forall i | i in held ensures i < n {
        var k :| k in slots && slots[k].Some? && slots[k].value == i;
      }
      forall i: nat | i < n ensures i in freeSet || i in held { }
    }
    assert |freeSet + held| == |freeSet| + |held|;
    DistinctCardinality(free);
    RangeCardinality(n);
  }
}
