/**
 * The array-backed doubly linked list of static_linked_listx.c: one array
 * of fixed-size items and one array of link records, threaded into a data
 * list (head..tail) and a free list (empty_head..empty_tail) that together
 * cover every slot.  The arrays grow by chunks of 128 slots.
 */
module StaticLinkedList {
  import opened Wrappers
  import opened CLang

  /** Slots are allocated in chunks of this many. */
  const ChunkSize: int := 128
  /** The index that stands for "no slot". */
  const Null: int := -1

  /** One item: the `item_size` bytes of one slot. */
  type Item = seq<Byte>

  /** `struct sllst_pointer`: the link record of one slot. */
  datatype Pointer = Pointer(hasData: int, next: int, prev: int)

  function First(s: seq<int>): int
  {
    if |s| == 0 then Null else s[0]
  }

  function Last(s: seq<int>): int
  {
    if |s| == 0 then Null else s[|s| - 1]
  }

  /** The slots `lo`, `lo+1`, ..., `hi-1`, in order. */
  function Range(lo: int, hi: int): (r: seq<int>)
    ensures |r| == if lo <= hi then hi - lo else 0
    ensures forall i :: 0 <= i < |r| ==> r[i] == lo + i
  {
    if lo < hi then seq(hi - lo, i => lo + i) else []
  }

  /** Every slot of `s` is an index of `p`. */
  ghost predicate InRange(p: seq<Pointer>, s: seq<int>)
  {
    forall i :: 0 <= i < |s| ==> 0 <= s[i] < |p|
  }

  /** In `p`, each slot of `s` has as `next` the slot after it in `s`, and the last slot has Null. */
  ghost predicate NextLinks(p: seq<Pointer>, s: seq<int>)
  {
    && InRange(p, s)
    && (forall i :: 0 <= i < |s| - 1 ==> p[s[i]].next == s[i + 1])
    && (|s| > 0 ==> p[s[|s| - 1]].next == Null)
  }

  /** In `p`, each slot of `s` has as `prev` the slot before it in `s`, and the first slot has Null. */
  ghost predicate PrevLinks(p: seq<Pointer>, s: seq<int>)
  {
    && InRange(p, s)
    && (forall i :: 0 < i < |s| ==> p[s[i]].prev == s[i - 1])
    && (|s| > 0 ==> p[s[0]].prev == Null)
  }

  ghost predicate Flags(p: seq<Pointer>, s: seq<int>, v: int)
  {
    forall i :: 0 <= i < |s| ==> 0 <= s[i] < |p| && p[s[i]].hasData == v
  }

  ghost predicate NoDup(s: seq<int>)
  {
    forall i, j :: 0 <= i < j < |s| ==> s[i] != s[j]
  }

  ghost predicate Disjoint(s: seq<int>, t: seq<int>)
  {
    forall i, j :: 0 <= i < |s| && 0 <= j < |t| ==> s[i] != t[j]
  }

  ghost predicate Covers(s: seq<int>, t: seq<int>, n: int)
  {
    forall k :: 0 <= k < n ==> k in s || k in t
  }

  /**
   * The link structure of the list: `data` and `free` are two disjoint
   * lists without repetition that cover the slots 0..|p|-1, linked forward,
   * the data list also backward, and every data slot is flagged as holding
   * data.  The backward links of the free list are written but never read.
   */
  ghost predicate Linked(p: seq<Pointer>, data: seq<int>, free: seq<int>)
  {
    && NextLinks(p, data) && PrevLinks(p, data) && NextLinks(p, free)
    && Flags(p, data, 1)
    && NoDup(data) && NoDup(free) && Disjoint(data, free)
    && Covers(data, free, |p|)
  }

  /** `Linked`, and the flag of a slot says exactly whether it is in the data list. */
  ghost predicate Shape(p: seq<Pointer>, data: seq<int>, free: seq<int>)
  {
    Linked(p, data, free) && Flags(p, free, 0)
  }

  /** The slots reached by following `next` from `start`, at most `fuel` of them. */
  ghost function Walk(p: seq<Pointer>, start: int, fuel: nat): seq<int>
    decreases fuel
  {
    if fuel == 0 || !(0 <= start < |p|) then [] else [start] + Walk(p, p[start].next, fuel - 1)
  }

  lemma {:induction false} WalkSuffix(p: seq<Pointer>, s: seq<int>, i: nat, fuel: nat)
    requires NextLinks(p, s) && i <= |s| && |s| - i <= fuel
    ensures Walk(p, if i < |s| then s[i] else Null, fuel) == s[i..]
    decreases |s| - i
  {
    if i < |s| {
      WalkSuffix(p, s, i + 1, fuel - 1);
    }
  }

  /**
   * Following `next` from the first slot of a forward-linked list gives the
   * list itself and stops there, however many steps are allowed beyond its
   * length: the list is acyclic and ends at its last slot.
   */
  lemma WalkFromFirst(p: seq<Pointer>, s: seq<int>, fuel: nat)
    requires NextLinks(p, s) && |s| <= fuel
    ensures Walk(p, First(s), fuel) == s
  {
    WalkSuffix(p, s, 0, fuel);
  }

  /** A list whose slots hold the same records in `p` and `q` is linked and flagged alike in both. */
  lemma AgreeOn(p: seq<Pointer>, q: seq<Pointer>, s: seq<int>, v: int)
    requires forall i :: 0 <= i < |s| ==> 0 <= s[i] < |p| && 0 <= s[i] < |q| && q[s[i]] == p[s[i]]
    ensures NextLinks(p, s) ==> NextLinks(q, s)
    ensures PrevLinks(p, s) ==> PrevLinks(q, s)
    ensures Flags(p, s, v) ==> Flags(q, s, v)
  {
  }

  /**
   * Appending the fresh slots `lo`, ..., `hi-1` to the free list keeps the
   * two lists a partition without repetition, now of the slots 0..hi-1.
   */
  lemma {:induction false} GrowKeepsPartition(data: seq<int>, free: seq<int>, lo: int, hi: int)
    requires NoDup(data) && NoDup(free) && Disjoint(data, free) && Covers(data, free, lo) && lo <= hi
    requires forall i :: 0 <= i < |data| ==> 0 <= data[i] < lo
    requires forall i :: 0 <= i < |free| ==> 0 <= free[i] < lo
    ensures NoDup(free + Range(lo, hi)) && Disjoint(data, free + Range(lo, hi)) && Covers(data, free + Range(lo, hi), hi)
  {
    var added, free' := Range(lo, hi), free + Range(lo, hi);
    forall k | 0 <= k < hi
      ensures k in data || k in free'
    {
      if k < lo {
        assert k in data || k in free;
      } else {
        assert free'[|free| + k - lo] == k;
      }
    }
    forall i, j | 0 <= i < j < |free'|
      ensures free'[i] != free'[j]
    {
    }
    forall i, j | 0 <= i < |data| && 0 <= j < |free'|
      ensures data[i] != free'[j]
    {
    }
  }

  /**
   * Appending a chunk of fresh slots `|p|..|q|-1`, linked in order and
   * flagged empty, to the free list (and linking the old free tail to the
   * first of them) keeps the shape.
   */
  lemma GrowKeepsShape(p: seq<Pointer>, q: seq<Pointer>, data: seq<int>, free: seq<int>, free': seq<int>)
    requires Shape(p, data, free) && |p| < |q| && free' == free + Range(|p|, |q|)
    requires forall j :: 0 <= j < |p| && j != Last(free) ==> q[j] == p[j]
    requires |free| > 0 ==> q[Last(free)] == p[Last(free)].(next := |p|)
    requires forall j :: |p| <= j < |q| ==> q[j].hasData == 0 && q[j].next == (if j + 1 < |q| then j + 1 else Null)
    ensures Shape(q, data, free')
  {
    forall i | 0 <= i < |data|
      ensures 0 <= data[i] < |q| && q[data[i]] == p[data[i]]
    {
      if |free| > 0 {
        assert data[i] != free[|free| - 1];
      }
    }
    AgreeOn(p, q, data, 1);
    GrowKeepsPartition(data, free, |p|, |q|);
    forall i | 0 <= i < |free'|
      ensures 0 <= free'[i] < |q| && q[free'[i]].hasData == 0
      ensures q[free'[i]].next == (if i + 1 < |free'| then free'[i + 1] else Null)
    {
      if i < |free| - 1 {
        assert free[i] != free[|free| - 1];
      } else if i == |free| - 1 {
        assert free'[i + 1] == |p|;
      } else {
        assert free'[i] == |p| + (i - |free|);
      }
    }
  }

  /** Whether `q` differs from `p` at most at the slots of `except`. */
  ghost predicate SameExcept(p: seq<Pointer>, q: seq<Pointer>, except: set<int>)
  {
    |q| == |p| && forall j :: 0 <= j < |p| && j !in except ==> q[j] == p[j]
  }

  /**
   * The data list with the first free slot appended is linked forward and
   * backward in `q` when that slot points back at the old tail and the old
   * tail points forward at it.
   */
  lemma {:induction false} InsertKeepsData(p: seq<Pointer>, q: seq<Pointer>, data: seq<int>, free: seq<int>)
    requires Shape(p, data, free) && |free| > 0
    requires SameExcept(p, q, {free[0], Last(data)} + (if |free| > 1 then {free[1]} else {}))
    requires q[free[0]] == Pointer(1, Null, Last(data))
    requires |data| > 0 ==> q[Last(data)] == p[Last(data)].(next := free[0])
    ensures NextLinks(q, data + [free[0]]) && PrevLinks(q, data + [free[0]]) && Flags(q, data + [free[0]], 1)
  {
    var data' := data + [free[0]];
    forall i | 0 <= i < |data'|
      ensures 0 <= data'[i] < |q| && q[data'[i]].hasData == 1
      ensures q[data'[i]].next == (if i + 1 < |data'| then data'[i + 1] else Null)
      ensures q[data'[i]].prev == (if 0 < i then data'[i - 1] else Null)
    {
      if i == |data| {
        assert 0 < i ==> data'[i - 1] == Last(data);
      } else {
        assert data[i] != free[0];
        assert |free| > 1 ==> data[i] != free[1];
        if i < |data| - 1 {
          assert data[i] != data[|data| - 1];
        }
      }
    }
    assert NextLinks(q, data');
    assert PrevLinks(q, data');
  }

  /** The free list without its first slot is linked forward in `q`, its flags cleared. */
  lemma {:induction false} InsertKeepsFree(p: seq<Pointer>, q: seq<Pointer>, data: seq<int>, free: seq<int>)
    requires Shape(p, data, free) && |free| > 0
    requires SameExcept(p, q, {free[0], Last(data)} + (if |free| > 1 then {free[1]} else {}))
    requires |free| > 1 ==> q[free[1]] == p[free[1]].(prev := Null)
    ensures NextLinks(q, free[1..]) && Flags(q, free[1..], 0)
  {
    var free' := free[1..];
    forall i | 0 <= i < |free'|
      ensures 0 <= free'[i] < |q| && q[free'[i]].hasData == 0
      ensures q[free'[i]].next == (if i + 1 < |free'| then free'[i + 1] else Null)
    {
      assert free'[i] == free[i + 1] != free[0];
      assert i + 1 < |free'| ==> free'[i + 1] == free[i + 2];
      assert |data| > 0 ==> free'[i] != data[|data| - 1];
      if i > 0 {
        assert free'[i] != free[1];
      }
    }
    assert NextLinks(q, free');
  }

  /**
   * Moving the first free slot to the end of the data list, flagged as
   * holding data, keeps the shape: `q` differs from `p` only at that slot,
   * at the next free slot (whose `prev` becomes Null) and at the old data
   * tail (whose `next` becomes the moved slot).
   */
  lemma InsertKeepsShape(p: seq<Pointer>, q: seq<Pointer>, data: seq<int>, free: seq<int>)
    requires Shape(p, data, free) && |free| > 0
    requires SameExcept(p, q, {free[0], Last(data)} + (if |free| > 1 then {free[1]} else {}))
    requires q[free[0]] == Pointer(1, Null, Last(data))
    requires |free| > 1 ==> q[free[1]] == p[free[1]].(prev := Null)
    requires |data| > 0 ==> q[Last(data)] == p[Last(data)].(next := free[0])
    ensures Shape(q, data + [free[0]], free[1..])
  {
    InsertKeepsData(p, q, data, free);
    InsertKeepsFree(p, q, data, free);
    var data', free' := data + [free[0]], free[1..];
    assert free == [free[0]] + free';
    forall i, j | 0 <= i < |data'| && 0 <= j < |free'|
      ensures data'[i] != free'[j]
    {
      assert free'[j] == free[j + 1];
    }
  }

  /** The positions of `s` other than `k`, in order. */
  function Without<T>(s: seq<T>, k: int): (r: seq<T>)
    requires 0 <= k < |s|
    ensures |r| == |s| - 1
    ensures forall i :: 0 <= i < |r| ==> r[i] == if i < k then s[i] else s[i + 1]
  {
    s[..k] + s[k + 1..]
  }

  /** The ends of `s` once position `k` is taken out. */
  lemma WithoutEnds(s: seq<int>, k: int)
    requires 0 <= k < |s|
    ensures First(Without(s, k)) == if k > 0 then s[0] else if |s| > 1 then s[1] else Null
    ensures Last(Without(s, k)) == if k < |s| - 1 then s[|s| - 1] else if k > 0 then s[k - 1] else Null
  {
  }

  /**
   * Taking the slot at position `k` out of the data list and appending it
   * to the free list keeps the two a partition of the slots.
   */
  lemma {:induction false} MoveKeepsPartition(data: seq<int>, free: seq<int>, k: int, n: int)
    requires NoDup(data) && NoDup(free) && Disjoint(data, free) && Covers(data, free, n) && 0 <= k < |data|
    ensures NoDup(Without(data, k)) && NoDup(free + [data[k]])
    ensures Disjoint(Without(data, k), free + [data[k]]) && Covers(Without(data, k), free + [data[k]], n)
  {
    var idx := data[k];
    var data', free' := Without(data, k), free + [idx];
    forall i, j | 0 <= i < j < |data'|
      ensures data'[i] != data'[j]
    {
      var oi, oj := if i < k then i else i + 1, if j < k then j else j + 1;
      assert data[oi] != data[oj];
    }
    forall i, j | 0 <= i < j < |free'|
      ensures free'[i] != free'[j]
    {
      if j == |free| {
        assert free[i] != data[k];
      }
    }
    forall i, j | 0 <= i < |data'| && 0 <= j < |free'|
      ensures data'[i] != free'[j]
    {
      var oi := if i < k then i else i + 1;
      assert data[oi] != idx;
    }
    forall k' | 0 <= k' < n
      ensures k' in data' || k' in free'
    {
      if k' in data && k' != idx {
        var o :| 0 <= o < |data| && data[o] == k';
        assert o != k;
        assert data'[if o < k then o else o - 1] == k';
      }
    }
  }

  /**
   * What unlinking the data slot at position `k` leaves unchanged, stated
   * by position in the data list: the `next` of every data slot except
   * the one before `k`, the `prev` of every data slot except the one
   * after `k`, and every flag except the unlinked one.
   */
  lemma {:induction false} UnlinkFrame(p: seq<Pointer>, q: seq<Pointer>, data: seq<int>, free: seq<int>, k: int)
    requires InRange(p, data) && NoDup(data) && Disjoint(data, free) && 0 <= k < |data| && |q| == |p|
    requires k > 0 ==> q[data[k - 1]] == p[data[k - 1]].(next := if k + 1 < |data| then data[k + 1] else Null)
    requires k + 1 < |data| ==> q[data[k + 1]] == p[data[k + 1]].(prev := if k > 0 then data[k - 1] else Null)
    requires forall j :: (0 <= j < |p| && j != data[k] && j != Last(free)
                          && (k > 0 ==> j != data[k - 1]) && (k + 1 < |data| ==> j != data[k + 1])) ==> q[j] == p[j]
    ensures forall j :: 0 <= j < |data| && j != k ==> q[data[j]].hasData == p[data[j]].hasData
    ensures forall j :: 0 <= j < |data| && j != k && j != k - 1 ==> q[data[j]].next == p[data[j]].next
    ensures forall j :: 0 <= j < |data| && j != k && j != k + 1 ==> q[data[j]].prev == p[data[j]].prev
  {
    forall j | 0 <= j < |data| && j != k
      ensures q[data[j]].hasData == p[data[j]].hasData
      ensures j != k - 1 ==> q[data[j]].next == p[data[j]].next
      ensures j != k + 1 ==> q[data[j]].prev == p[data[j]].prev
    {
      if j != k - 1 && j != k + 1 {
        assert data[j] != data[k];
        assert k > 0 ==> data[j] != data[k - 1];
        assert k + 1 < |data| ==> data[j] != data[k + 1];
        assert |free| > 0 ==> data[j] != free[|free| - 1];
      }
    }
  }

  /** Joining the neighbours of the data slot at position `k` links the rest forward. */
  lemma {:induction false} UnlinkKeepsNext(p: seq<Pointer>, q: seq<Pointer>, data: seq<int>, k: int)
    requires NextLinks(p, data) && 0 <= k < |data| && |q| == |p|
    requires k > 0 ==> q[data[k - 1]].next == if k + 1 < |data| then data[k + 1] else Null
    requires forall j :: 0 <= j < |data| && j != k && j != k - 1 ==> q[data[j]].next == p[data[j]].next
    ensures NextLinks(q, Without(data, k))
  {
    var data' := Without(data, k);
    forall i | 0 <= i < |data'|
      ensures q[data'[i]].next == if i + 1 < |data'| then data'[i + 1] else Null
    {
      var o := if i < k then i else i + 1;
      if o != k - 1 {
        assert p[data[o]].next == if o + 1 < |data| then data[o + 1] else Null;
      }
    }
  }

  /** Joining the neighbours of the data slot at position `k` links the rest backward. */
  lemma {:induction false} UnlinkKeepsPrev(p: seq<Pointer>, q: seq<Pointer>, data: seq<int>, k: int)
    requires PrevLinks(p, data) && 0 <= k < |data| && |q| == |p|
    requires k + 1 < |data| ==> q[data[k + 1]].prev == if k > 0 then data[k - 1] else Null
    requires forall j :: 0 <= j < |data| && j != k && j != k + 1 ==> q[data[j]].prev == p[data[j]].prev
    ensures PrevLinks(q, Without(data, k))
  {
    var data' := Without(data, k);
    forall i | 0 <= i < |data'|
      ensures q[data'[i]].prev == if 0 < i then data'[i - 1] else Null
    {
      var o := if i < k then i else i + 1;
      if o != k + 1 {
        assert p[data[o]].prev == if 0 < o then data[o - 1] else Null;
      }
    }
  }

  /**
   * Joining the neighbours of the data slot at position `k` links the
   * remaining data slots, in their order, forward and backward, and leaves
   * their flags set.
   */
  lemma UnlinkKeepsData(p: seq<Pointer>, q: seq<Pointer>, data: seq<int>, free: seq<int>, k: int)
    requires Shape(p, data, free) && 0 <= k < |data| && |q| == |p|
    requires k > 0 ==> q[data[k - 1]] == p[data[k - 1]].(next := if k + 1 < |data| then data[k + 1] else Null)
    requires k + 1 < |data| ==> q[data[k + 1]] == p[data[k + 1]].(prev := if k > 0 then data[k - 1] else Null)
    requires forall j :: (0 <= j < |p| && j != data[k] && j != Last(free)
                          && (k > 0 ==> j != data[k - 1]) && (k + 1 < |data| ==> j != data[k + 1])) ==> q[j] == p[j]
    ensures NextLinks(q, Without(data, k)) && PrevLinks(q, Without(data, k)) && Flags(q, Without(data, k), 1)
  {
    UnlinkFrame(p, q, data, free, k);
    UnlinkKeepsNext(p, q, data, k);
    UnlinkKeepsPrev(p, q, data, k);
  }

  /**
   * Appending the unlinked slot to the free list links the free list
   * forward; the slots already free keep their cleared flags.
   */
  lemma {:induction false} UnlinkKeepsFree(p: seq<Pointer>, q: seq<Pointer>, data: seq<int>, free: seq<int>, k: int)
    requires Shape(p, data, free) && 0 <= k < |data| && |q| == |p|
    requires |free| > 0 ==> q[Last(free)] == p[Last(free)].(next := data[k])
    requires q[data[k]].next == Null
    requires forall j :: (0 <= j < |p| && j != data[k] && j != Last(free)
                          && (k > 0 ==> j != data[k - 1]) && (k + 1 < |data| ==> j != data[k + 1])) ==> q[j] == p[j]
    ensures NextLinks(q, free + [data[k]]) && Flags(q, free, 0)
  {
    var free' := free + [data[k]];
    forall i | 0 <= i < |free'|
      ensures 0 <= free'[i] < |q|
      ensures q[free'[i]].next == (if i + 1 < |free'| then free'[i + 1] else Null)
      ensures i < |free| ==> q[free'[i]].hasData == 0
    {
      if i < |free| {
        assert free[i] != data[k];
        assert k > 0 ==> free[i] != data[k - 1];
        assert k + 1 < |data| ==> free[i] != data[k + 1];
        if i < |free| - 1 {
          assert free[i] != free[|free| - 1];
        }
      }
    }
  }

  /**
   * Unlinking the data slot at position `k` (joining its neighbours) and
   * appending it to the free list keeps the link structure, whatever the
   * unlinked slot's flag; with its flag cleared the shape is kept as well.
   */
  lemma UnlinkKeepsLinks(p: seq<Pointer>, q: seq<Pointer>, data: seq<int>, free: seq<int>, k: int)
    requires Shape(p, data, free) && 0 <= k < |data| && |q| == |p|
    requires k > 0 ==> q[data[k - 1]] == p[data[k - 1]].(next := if k + 1 < |data| then data[k + 1] else Null)
    requires k + 1 < |data| ==> q[data[k + 1]] == p[data[k + 1]].(prev := if k > 0 then data[k - 1] else Null)
    requires |free| > 0 ==> q[Last(free)] == p[Last(free)].(next := data[k])
    requires q[data[k]].next == Null
    requires forall j :: (0 <= j < |p| && j != data[k] && j != Last(free)
                          && (k > 0 ==> j != data[k - 1]) && (k + 1 < |data| ==> j != data[k + 1])) ==> q[j] == p[j]
    ensures Linked(q, Without(data, k), free + [data[k]]) && Flags(q, free, 0)
    ensures q[data[k]].hasData == 0 ==> Shape(q, Without(data, k), free + [data[k]])
  {
    UnlinkKeepsData(p, q, data, free, k);
    UnlinkKeepsFree(p, q, data, free, k);
    MoveKeepsPartition(data, free, k, |p|);
  }

  /** The items stored at the slots of `s`, in order. */
  function Gather(a: seq<Item>, s: seq<int>): (r: seq<Item>)
    ensures |r| == |s|
    decreases |s|
  {
    if |s| == 0 then [] else Gather(a, s[..|s| - 1]) + [if 0 <= s[|s| - 1] < |a| then a[s[|s| - 1]] else []]
  }

  /** Position `i` of the gathered items is the item at slot `s[i]`. */
  lemma {:induction false} GatherAt(a: seq<Item>, s: seq<int>, i: int)
    requires 0 <= i < |s| && 0 <= s[i] < |a|
    ensures Gather(a, s)[i] == a[s[i]]
    decreases |s|
  {
    if i < |s| - 1 {
      GatherAt(a, s[..|s| - 1], i);
    }
  }

  /** Gathering one more slot appends its item. */
  lemma GatherAppend(a: seq<Item>, s: seq<int>, x: int)
    requires 0 <= x < |a|
    ensures Gather(a, s + [x]) == Gather(a, s) + [a[x]]
  {
    assert (s + [x])[..|s|] == s;
  }

  /** Two item arrays that agree on the slots of `s` gather the same items. */
  lemma {:induction false} GatherSame(a: seq<Item>, b: seq<Item>, s: seq<int>)
    requires forall i :: 0 <= i < |s| ==> 0 <= s[i] < |a| && 0 <= s[i] < |b| && a[s[i]] == b[s[i]]
    ensures Gather(a, s) == Gather(b, s)
    decreases |s|
  {
    if |s| > 0 {
      GatherSame(a, b, s[..|s| - 1]);
    }
  }

  /** The position of `x` in `s`. */
  ghost function IndexOf(s: seq<int>, x: int): (k: int)
    requires x in s
    ensures 0 <= k < |s| && s[k] == x
  {
    var k :| 0 <= k < |s| && s[k] == x; k
  }

  /** `struct static_linked_listx`: the values of the list's fields. */
  datatype List = List(itemSize: int, items: seq<Item>, pointers: seq<Pointer>, len: int, size: int,
                       head: int, tail: int, emptyHead: int, emptyTail: int)

  /**
   * The fields of `l` agree with the data list `data` and the free list
   * `free`: `size` slots of `itemSize` bytes each, threaded into the two
   * lists, whose ends and length the bookkeeping fields name.
   */
  ghost predicate Wellformed(l: List, data: seq<int>, free: seq<int>)
  {
    && 0 < l.itemSize
    && l.size == |l.items| == |l.pointers| && ChunkSize <= l.size
    && (forall i :: 0 <= i < |l.items| ==> |l.items[i]| == l.itemSize)
    && Linked(l.pointers, data, free) && |data| + |free| == l.size
    && l.len == |data|
    && l.head == First(data) && l.tail == Last(data)
    && l.emptyHead == First(free) && l.emptyTail == Last(free)
  }

  /** `Wellformed`, and no free slot is flagged as holding data. */
  ghost predicate Fields(l: List, data: seq<int>, free: seq<int>)
  {
    Wellformed(l, data, free) && Flags(l.pointers, free, 0)
  }

  /** The data list: the slots reached from `head`. */
  ghost function Data(l: List): seq<int>
  {
    Walk(l.pointers, l.head, |l.pointers|)
  }

  /** The free list: the slots reached from `empty_head`. */
  ghost function FreeSlots(l: List): seq<int>
  {
    Walk(l.pointers, l.emptyHead, |l.pointers|)
  }

  /** The invariant every operation keeps. */
  ghost predicate Valid(l: List)
  {
    Fields(l, Data(l), FreeSlots(l))
  }

  /** The stored items, from head to tail. */
  ghost function Contents(l: List): seq<Item>
  {
    Gather(l.items, Data(l))
  }

  /** The lists a well-formed list threads are the ones its links lead through. */
  lemma WellformedWalks(l: List, data: seq<int>, free: seq<int>)
    requires Wellformed(l, data, free)
    ensures Data(l) == data && FreeSlots(l) == free
  {
    WalkFromFirst(l.pointers, data, |l.pointers|);
    WalkFromFirst(l.pointers, free, |l.pointers|);
  }

  /** In a valid list, a slot is flagged as holding data exactly when it is in the data list. */
  lemma FlagMeansData(l: List, idx: int)
    requires Valid(l) && 0 <= idx < l.size
    ensures l.pointers[idx].hasData == 1 <==> idx in Data(l)
  {
    var p, data, free := l.pointers, Data(l), FreeSlots(l);
    assert idx in data || idx in free;
    if idx in free {
      var j := IndexOf(free, idx);
      assert p[free[j]].hasData == 0;
    } else {
      var j := IndexOf(data, idx);
      assert p[data[j]].hasData == 1;
    }
  }

  /**
   * `static_linked_listx_init`: 1 for a missing handle or a zero item size,
   * 2 when the allocation fails; otherwise a list of 128 zeroed slots whose
   * free list runs 0, 1, ..., 127 and whose data list is empty.
   */
  method Init(handleGiven: bool, itemSize: nat, allocFails: bool) returns (code: int, list: Option<List>)
    ensures code == (if !handleGiven || itemSize == 0 then 1 else if allocFails then 2 else 0)
    ensures code != 0 ==> list.None?
    ensures code == 0 ==>
      && list.Some? && Valid(list.value)
      && list.value.itemSize == itemSize && list.value.size == ChunkSize
      && Data(list.value) == [] && FreeSlots(list.value) == Range(0, ChunkSize) && Contents(list.value) == []
      && (forall i :: 0 <= i < ChunkSize ==> list.value.items[i] == Zeros(itemSize))
  {
    if !handleGiven || itemSize == 0 {
      return 1, None;
    }
    if allocFails {
      return 2, None;
    }
    var items := seq(ChunkSize, _ => Zeros(itemSize));
    var p := ChunkLinks();
    var l := List(itemSize, items, p, 0, ChunkSize, Null, Null, 0, ChunkSize - 1);
    EmptyListValid(l);
    return 0, Some(l);
  }

  /**
   * The link loop of `static_linked_listx_init`: slot `j` gets `next = j + 1`
   * and `prev = j - 1`, and then both ends are cut off with Null.
   */
  method ChunkLinks() returns (p: seq<Pointer>)
    ensures |p| == ChunkSize
    ensures forall j :: 0 <= j < ChunkSize ==>
      p[j] == Pointer(0, if j + 1 < ChunkSize then j + 1 else Null, if j > 0 then j - 1 else Null)
  {
    p := seq(ChunkSize, _ => Pointer(0, 0, 0));
    var i := 0;
    while i < ChunkSize
      invariant 0 <= i <= ChunkSize && |p| == ChunkSize
      invariant forall j :: 0 <= j < i ==> p[j] == Pointer(0, j + 1, j - 1)
    {
      p := p[i := Pointer(0, i + 1, i - 1)];
      i := i + 1;
    }
    p := p[0 := p[0].(prev := Null)];
    p := p[ChunkSize - 1 := p[ChunkSize - 1].(next := Null)];
  }

  /**
   * A list of one chunk of empty slots linked in index order, with no data
   * and the free list running from slot 0 to the last slot, is valid.
   */
  lemma EmptyListValid(l: List)
    requires 0 < l.itemSize && l.size == ChunkSize == |l.items| == |l.pointers|
    requires forall i :: 0 <= i < ChunkSize ==> |l.items[i]| == l.itemSize
    requires forall j :: 0 <= j < ChunkSize ==>
      l.pointers[j].hasData == 0 && l.pointers[j].next == (if j + 1 < ChunkSize then j + 1 else Null)
    requires l.len == 0 && l.head == Null && l.tail == Null && l.emptyHead == 0 && l.emptyTail == ChunkSize - 1
    ensures Valid(l) && Data(l) == [] && FreeSlots(l) == Range(0, ChunkSize) && Contents(l) == []
  {
    GrowKeepsShape([], l.pointers, [], [], Range(0, ChunkSize));
    WellformedWalks(l, [], Range(0, ChunkSize));
  }

  /**
   * The code `static_linked_listx_increase` returns as written: a failed
   * reallocation is logged and then reported as success.
   */
  function IncreaseCodeAsWritten(listGiven: bool, allocFails: bool): (code: int)
    ensures code == 0 <==> listGiven
    ensures code != 2
  {
    if !listGiven then 1 else 0
  }

  /** The growth failure is invisible to the caller, so insert goes on with no free slot. */
  lemma IncreaseAsWrittenHidesFailure()
    ensures IncreaseCodeAsWritten(true, true) == IncreaseCodeAsWritten(true, false) == 0
  {
  }

  /** The code `static_linked_listx_increase` documents: 1 for a NULL list, 2 when allocation fails. */
  function IncreaseCode(listGiven: bool, allocFails: bool): (code: int)
    ensures code == 0 <==> listGiven && !allocFails
    ensures code == 2 <==> listGiven && allocFails
  {
    if !listGiven then 1 else if allocFails then 2 else 0
  }

  /**
   * The reallocation, the clearing and the loop of
   * `static_linked_listx_increase`: both arrays 128 slots longer, keeping
   * the old slots, with zeroed items in the new slots, each linked to its
   * neighbours.
   */
  method Grow(items: seq<Item>, pointers: seq<Pointer>, itemSize: nat)
    returns (newItems: seq<Item>, newPointers: seq<Pointer>)
    ensures |newItems| == |items| + ChunkSize && |newPointers| == |pointers| + ChunkSize
    ensures newItems[..|items|] == items && newPointers[..|pointers|] == pointers
    ensures forall j :: |items| <= j < |newItems| ==> newItems[j] == Zeros(itemSize)
    ensures forall j :: |pointers| <= j < |newPointers| ==> newPointers[j] == Pointer(0, j + 1, j - 1)
  {
    var oldSize, n := |pointers|, |pointers| + ChunkSize;
    newItems := items + seq(ChunkSize, _ => Zeros(itemSize));
    newPointers := pointers + seq(ChunkSize, _ => Pointer(0, 0, 0));
    var i := oldSize;
    while i < n
      invariant oldSize <= i <= n && |newPointers| == n
      invariant newPointers[..oldSize] == pointers
      invariant forall j :: oldSize <= j < i ==> newPointers[j] == Pointer(0, j + 1, j - 1)
    {
      newPointers := newPointers[i := Pointer(0, i + 1, i - 1)];
      i := i + 1;
    }
  }

  /**
   * The tail of `static_linked_listx_increase`: the new chunk `oldSize..`
   * becomes the whole free list when that was empty, and is otherwise
   * appended after its tail.  Returns the links and the new free-list ends.
   */
  method JoinChunk(p: seq<Pointer>, oldSize: int, emptyHead: int, emptyTail: int)
    returns (q: seq<Pointer>, head: int, tail: int)
    requires 0 <= oldSize && |p| == oldSize + ChunkSize
    requires emptyHead == Null <==> emptyTail == Null
    requires emptyTail == Null || 0 <= emptyTail < oldSize
    requires forall j :: oldSize <= j < |p| ==> p[j] == Pointer(0, j + 1, j - 1)
    ensures |q| == |p|
    ensures head == (if emptyHead == Null then oldSize else emptyHead) && tail == |p| - 1
    ensures forall j :: 0 <= j < oldSize && j != emptyTail ==> q[j] == p[j]
    ensures emptyTail != Null ==> q[emptyTail] == p[emptyTail].(next := oldSize)
    ensures forall j :: oldSize <= j < |q| ==> q[j].hasData == 0 && q[j].next == (if j + 1 < |q| then j + 1 else Null)
  {
    q := p;
    if emptyHead == Null {
      // the free list was empty: the new chunk is the whole free list
      head, tail := oldSize, |q| - 1;
      q := q[head := q[head].(prev := Null)];
      q := q[tail := q[tail].(next := Null)];
    } else {
      q := q[emptyTail := q[emptyTail].(next := oldSize)];
      head, tail := emptyHead, |q| - 1;
      q := q[tail := q[tail].(next := Null)];
    }
  }

  /**
   * A valid list whose arrays are replaced by the ones `Grow` and
   * `JoinChunk` make of them is valid, keeps its data list and items, and
   * has the new chunk at the end of its free list.
   */
  lemma GrowKeepsValid(l: List, newItems: seq<Item>, newPointers: seq<Pointer>, l': List)
    requires Valid(l)
    requires |newItems| == |l.items| + ChunkSize && |newPointers| == |l.pointers| + ChunkSize
    requires newItems[..|l.items|] == l.items && newPointers[..|l.pointers|] == l.pointers
    requires forall j :: |l.items| <= j < |newItems| ==> newItems[j] == Zeros(l.itemSize)
    requires l'.itemSize == l.itemSize && l'.len == l.len && l'.head == l.head && l'.tail == l.tail
    requires l'.size == l.size + ChunkSize && l'.items == newItems && |l'.pointers| == |newPointers|
    requires l'.emptyHead == (if l.emptyHead == Null then l.size else l.emptyHead) && l'.emptyTail == l'.size - 1
    requires forall j :: 0 <= j < l.size && j != l.emptyTail ==> l'.pointers[j] == newPointers[j]
    requires l.emptyTail != Null ==> l'.pointers[l.emptyTail] == newPointers[l.emptyTail].(next := l.size)
    requires forall j :: l.size <= j < l'.size ==>
               l'.pointers[j].hasData == 0 && l'.pointers[j].next == (if j + 1 < l'.size then j + 1 else Null)
    ensures Valid(l') && Data(l') == Data(l) && FreeSlots(l') == FreeSlots(l) + Range(l.size, l'.size)
    ensures Contents(l') == Contents(l)
  {
    var p, q, data, free := l.pointers, l'.pointers, Data(l), FreeSlots(l);
    forall j | 0 <= j < |p| && j != Last(free)
      ensures q[j] == p[j]
    {
      assert newPointers[..|p|][j] == newPointers[j];
    }
    if |free| > 0 {
      assert newPointers[..|p|][Last(free)] == newPointers[Last(free)];
    }
    var free' := free + Range(|p|, |q|);
    GrowKeepsShape(p, q, data, free, free');
    forall i | 0 <= i < |newItems|
      ensures |newItems[i]| == l.itemSize
    {
      if i < |l.items| {
        assert newItems[..|l.items|][i] == newItems[i];
      }
    }
    assert Wellformed(l', data, free');
    WellformedWalks(l', data, free');
    forall i | 0 <= i < |data|
      ensures 0 <= data[i] < |l.items| && l.items[data[i]] == newItems[data[i]]
    {
      assert newItems[..|l.items|][data[i]] == newItems[data[i]];
    }
    GatherSame(l.items, newItems, data);
  }

  /**
   * `static_linked_listx_increase` with its documented failure code: the
   * arrays are reallocated 128 slots larger, keeping every existing item and
   * link, and the new slots, zeroed and linked in order, are appended to
   * the free list.  A failed allocation leaves the list as it was.
   */
  method Increase(list: Option<List>, allocFails: bool) returns (code: int, list': Option<List>)
    requires list.Some? ==> Valid(list.value)
    ensures code == IncreaseCode(list.Some?, allocFails)
    ensures code != 0 ==> list' == list
    ensures code == 0 ==>
      && list.Some? && list'.Some? && Valid(list'.value)
      && list'.value.size == list.value.size + ChunkSize
      && Data(list'.value) == Data(list.value)
      && FreeSlots(list'.value) == FreeSlots(list.value) + Range(list.value.size, list'.value.size)
      && (list.value.emptyHead == Null ==> list'.value.emptyHead == list.value.size)
      && Contents(list'.value) == Contents(list.value)
      && list'.value.itemSize == list.value.itemSize
      && list'.value.items[..list.value.size] == list.value.items
      && (forall i :: list.value.size <= i < list'.value.size ==> list'.value.items[i] == Zeros(list.value.itemSize))
  {
    if list.None? {
      return 1, list;
    }
    if allocFails {
      return 2, list;
    }
    var l := list.value;
    var newItems, newPointers := Grow(l.items, l.pointers, l.itemSize);
    var q, eh, et := JoinChunk(newPointers, l.size, l.emptyHead, l.emptyTail);
    var l' := l.(size := l.size + ChunkSize, items := newItems, pointers := q, emptyHead := eh, emptyTail := et);
    GrowKeepsValid(l, newItems, newPointers, l');
    return 0, Some(l');
  }

  /**
   * Moving the first free slot of a valid list, filled with `item`, to the
   * end of its data list keeps it valid and appends `item` to its contents.
   */
  lemma InsertKeepsValid(l: List, item: Item, l': List)
    requires Valid(l) && l.emptyHead != Null && |item| == l.itemSize
    requires l'.itemSize == l.itemSize && l'.size == l.size && l'.len == l.len + 1
    requires l'.items == l.items[l.emptyHead := item]
    requires l'.head == (if l.head == Null then l.emptyHead else l.head) && l'.tail == l.emptyHead
    requires l'.emptyHead == l.pointers[l.emptyHead].next
    requires l'.emptyTail == (if l'.emptyHead == Null then Null else l.emptyTail)
    requires SameExcept(l.pointers, l'.pointers, {l.emptyHead, l.tail, l'.emptyHead})
    requires l'.pointers[l.emptyHead] == Pointer(1, Null, l.tail)
    requires l'.emptyHead != Null ==> 0 <= l'.emptyHead < |l.pointers| && l'.pointers[l'.emptyHead] == l.pointers[l'.emptyHead].(prev := Null)
    requires l.tail != Null ==> l'.pointers[l.tail] == l.pointers[l.tail].(next := l.emptyHead)
    ensures Valid(l') && Data(l') == Data(l) + [l.emptyHead] && FreeSlots(l') == FreeSlots(l)[1..]
    ensures Contents(l') == Contents(l) + [item]
  {
    var p, q, data, free, idx := l.pointers, l'.pointers, Data(l), FreeSlots(l), l.emptyHead;
    assert l'.emptyHead == if |free| > 1 then free[1] else Null;
    assert SameExcept(p, q, {free[0], Last(data)} + (if |free| > 1 then {free[1]} else {}));
    InsertKeepsShape(p, q, data, free);
    var data', free' := data + [idx], free[1..];
    assert Wellformed(l', data', free');
    WellformedWalks(l', data', free');
    assert idx !in data by {
      assert idx == free[0];
    }
    GatherStore(l.items, data, idx, item);
  }

  /** Storing an item in a slot outside `s` and appending that slot appends the item. */
  lemma GatherStore(a: seq<Item>, s: seq<int>, idx: int, item: Item)
    requires 0 <= idx < |a| && idx !in s && forall i :: 0 <= i < |s| ==> 0 <= s[i] < |a|
    ensures Gather(a[idx := item], s + [idx]) == Gather(a, s) + [item]
  {
    forall i | 0 <= i < |s|
      ensures 0 <= s[i] < |a| && a[s[i]] == a[idx := item][s[i]]
    {
      assert s[i] != idx;
    }
    GatherSame(a, a[idx := item], s);
    GatherAppend(a[idx := item], s, idx);
  }

  /**
   * In a valid list with a free slot, the free head, its successor and the
   * data tail are slots (or Null) and the free head is neither of the others.
   */
  lemma FreeHeadLinks(l: List)
    requires Valid(l) && l.emptyHead != Null
    ensures 0 <= l.emptyHead < |l.pointers| && (l.tail == Null || 0 <= l.tail < |l.pointers|) && l.tail != l.emptyHead
    ensures l.pointers[l.emptyHead].next == Null
            || (0 <= l.pointers[l.emptyHead].next < |l.pointers|
                && l.pointers[l.emptyHead].next != l.emptyHead && l.pointers[l.emptyHead].next != l.tail)
  {
    var data, free := Data(l), FreeSlots(l);
    assert l.pointers[free[0]].next == if |free| > 1 then free[1] else Null;
    if |data| > 0 {
      assert data[|data| - 1] != free[0];
      assert |free| > 1 ==> data[|data| - 1] != free[1];
    }
  }

  /**
   * The link updates of `static_linked_listx_insert`: slot `idx`, the head
   * of the free list, is flagged as holding data and taken off the free
   * list (its successor, returned, becomes the free head with no
   * predecessor), then linked after the data tail `tail`.
   */
  method MoveToData(p: seq<Pointer>, idx: int, tail: int) returns (q: seq<Pointer>, emptyHead: int)
    requires 0 <= idx < |p| && (tail == Null || 0 <= tail < |p|) && tail != idx
    requires p[idx].next == Null || (0 <= p[idx].next < |p| && p[idx].next != idx && p[idx].next != tail)
    ensures emptyHead == p[idx].next
    ensures SameExcept(p, q, {idx, tail, emptyHead})
    ensures q[idx] == Pointer(1, Null, tail)
    ensures emptyHead != Null ==> 0 <= emptyHead < |p| && q[emptyHead] == p[emptyHead].(prev := Null)
    ensures tail != Null ==> q[tail] == p[tail].(next := idx)
  {
    q := p[idx := p[idx].(hasData := 1)];
    // take it off the free list
    emptyHead := q[idx].next;
    if emptyHead != Null {
      q := q[emptyHead := q[emptyHead].(prev := Null)];
    }
    // append it to the data list
    if tail != Null {
      q := q[tail := q[tail].(next := idx)];
    }
    q := q[idx := q[idx].(prev := tail)];
    q := q[idx := q[idx].(next := Null)];
  }

  /**
   * The body of `static_linked_listx_insert` once a slot is free: the item
   * goes into the first free slot, which moves to the end of the data list.
   */
  method Store(l: List, item: Item) returns (l': List)
    requires Valid(l) && l.emptyHead != Null && |item| == l.itemSize
    ensures Valid(l') && l'.size == l.size && l'.len == l.len + 1 && l'.tail == l.emptyHead
    ensures Data(l') == Data(l) + [l.emptyHead] && FreeSlots(l') == FreeSlots(l)[1..]
    ensures Contents(l') == Contents(l) + [item]
  {
    FreeHeadLinks(l);
    // save into the first free slot
    var idx := l.emptyHead;
    var items := l.items[idx := item];
    var p, emptyHead := MoveToData(l.pointers, idx, l.tail);
    var emptyTail := if emptyHead == Null then Null else l.emptyTail;
    var head := if l.head == Null then idx else l.head;
    l' := l.(items := items, pointers := p, emptyHead := emptyHead, emptyTail := emptyTail,
             tail := idx, head := head, len := l.len + 1);
    InsertKeepsValid(l, item, l');
  }

  /**
   * `static_linked_listx_insert`: 1 for a missing list or item; when no
   * slot is free the list grows first, and 2 reports that growing failed.
   * Otherwise the item is copied into the first free slot, which moves to
   * the end of the data list.
   */
  method Insert(list: Option<List>, item: Option<Item>, allocFails: bool) returns (code: int, list': Option<List>)
    requires list.Some? ==> Valid(list.value)
    requires list.Some? && item.Some? ==> |item.value| == list.value.itemSize
    ensures code == (if list.None? || item.None? then 1
                     else if list.value.emptyHead == Null && allocFails then 2 else 0)
    ensures code != 0 ==> list' == list
    ensures code == 0 ==>
      && list.Some? && list'.Some? && Valid(list'.value)
      && Contents(list'.value) == Contents(list.value) + [item.value]
      && Data(list'.value) == Data(list.value) + [if list.value.emptyHead == Null then list.value.size else list.value.emptyHead]
      && list'.value.len == list.value.len + 1
      && list'.value.size == list.value.size + (if list.value.emptyHead == Null then ChunkSize else 0)
  {
    if list.None? || item.None? {
      return 1, list;
    }
    var l := list.value;
    if l.emptyHead == Null {
      // no room left: grow the arrays first
      var rc, grown := Increase(list, allocFails);
      if rc != 0 {
        return 2, list;
      }
      l := grown.value;
    }
    var l' := Store(l, item.value);
    return 0, Some(l');
  }

  /**
   * In a list whose fields describe `data` and `free`, the neighbours of
   * the data slot at position `k` are the slots around it in the data
   * list, it is the head exactly when it is first and the tail exactly
   * when it is last, and the free tail is Null or another slot.
   */
  lemma DataSlotLinks(l: List, data: seq<int>, free: seq<int>, k: int)
    requires Wellformed(l, data, free) && 0 <= k < |data|
    ensures var p, idx := l.pointers, data[k];
      && 0 <= idx < |p|
      && p[idx].prev == (if k > 0 then data[k - 1] else Null)
      && p[idx].next == (if k + 1 < |data| then data[k + 1] else Null)
      && (idx == l.head <==> k == 0) && (idx == l.tail <==> k == |data| - 1)
      && (0 < k < |data| - 1 ==> data[k - 1] != data[k + 1])
      && (l.emptyTail == Null || (0 <= l.emptyTail < |p| && l.emptyTail != idx))
  {
    assert PrevLinks(l.pointers, data);
    assert k > 0 ==> data[0] != data[k];
    assert k < |data| - 1 ==> data[|data| - 1] != data[k];
    assert |free| > 0 ==> free[|free| - 1] != data[k];
    assert 0 < k < |data| - 1 ==> data[k - 1] != data[k + 1];
  }

  /**
   * The unlinking step of `static_linked_listx_remove`: the neighbours of
   * slot `idx` are joined (or become an end of the data list), and the
   * head and tail follow.
   */
  method Unlink(p: seq<Pointer>, idx: int, head: int, tail: int) returns (q: seq<Pointer>, head': int, tail': int)
    requires 0 <= idx < |p|
    requires idx == head ==> p[idx].next == Null || 0 <= p[idx].next < |p|
    requires idx != head ==> 0 <= p[idx].prev < |p|
    requires idx != head && idx != tail ==> 0 <= p[idx].next < |p| && p[idx].next != p[idx].prev
    ensures idx == head ==> head' == p[idx].next && tail' == (if p[idx].next == Null then Null else tail)
    ensures idx != head ==> head' == head && tail' == (if idx == tail then p[idx].prev else tail)
    ensures idx == head && p[idx].next == Null ==> q == p
    ensures idx == head && p[idx].next != Null ==> q == p[p[idx].next := p[p[idx].next].(prev := Null)]
    ensures idx != head && idx == tail ==> q == p[p[idx].prev := p[p[idx].prev].(next := Null)]
    ensures idx != head && idx != tail ==>
      q == p[p[idx].prev := p[p[idx].prev].(next := p[idx].next)][p[idx].next := p[p[idx].next].(prev := p[idx].prev)]
  {
    var prev, next := p[idx].prev, p[idx].next;
    q, head', tail' := p, head, tail;
    if idx == head {
      // removing the first item
      head' := next;
      if head' == Null {
        tail' := Null;
      } else {
        q := q[next := q[next].(prev := Null)];
      }
    } else if idx == tail {
      // removing the last item
      tail' := prev;
      q := q[prev := q[prev].(next := Null)];
    } else {
      q := q[prev := q[prev].(next := next)];
      q := q[next := q[next].(prev := prev)];
    }
  }

  /**
   * The second step of `static_linked_listx_remove`: slot `idx` is
   * appended to the free list, or becomes the whole free list when that
   * is empty.  Its flag is left as it was.
   */
  method AppendFree(q: seq<Pointer>, idx: int, emptyHead: int, emptyTail: int)
    returns (r: seq<Pointer>, emptyHead': int, emptyTail': int)
    requires 0 <= idx < |q| && (emptyTail == Null || (0 <= emptyTail < |q| && emptyTail != idx))
    ensures emptyTail' == idx && emptyHead' == (if emptyTail == Null then idx else emptyHead)
    ensures emptyTail == Null ==> r == q[idx := q[idx].(prev := Null, next := Null)]
    ensures emptyTail != Null ==>
      r == q[emptyTail := q[emptyTail].(next := idx)][idx := q[idx].(prev := emptyTail, next := Null)]
  {
    if emptyTail != Null {
      r := q[emptyTail := q[emptyTail].(next := idx)];
      r := r[idx := r[idx].(prev := emptyTail)];
      r := r[idx := r[idx].(next := Null)];
      emptyHead', emptyTail' := emptyHead, idx;
    } else {
      r := q[idx := q[idx].(prev := Null)];
      r := r[idx := r[idx].(next := Null)];
      emptyHead', emptyTail' := idx, idx;
    }
  }

  /**
   * The two steps of `static_linked_listx_remove` take the data slot at
   * position `k` out of the data list, keeping the order of the rest, and
   * append it to the free list; the slots that were free keep their
   * cleared flags, and the moved slot keeps its flag.
   */
  lemma RemoveKeepsLinks(l: List, data: seq<int>, free: seq<int>, k: int, q: seq<Pointer>, r: seq<Pointer>)
    requires Fields(l, data, free) && 0 <= k < |data|
    requires var p, idx := l.pointers, data[k];
      && 0 <= idx < |p|
      && (idx == l.head ==> p[idx].next == Null || 0 <= p[idx].next < |p|)
      && (idx != l.head ==> 0 <= p[idx].prev < |p|)
      && (idx != l.head && idx != l.tail ==> 0 <= p[idx].next < |p|)
      && (l.emptyTail == Null || 0 <= l.emptyTail < |p|)
    requires var p, idx := l.pointers, data[k];
      && |q| == |p|
      && (idx == l.head && p[idx].next == Null ==> q == p)
      && (idx == l.head && p[idx].next != Null ==> q == p[p[idx].next := p[p[idx].next].(prev := Null)])
      && (idx != l.head && idx == l.tail ==> q == p[p[idx].prev := p[p[idx].prev].(next := Null)])
      && (idx != l.head && idx != l.tail ==>
            q == p[p[idx].prev := p[p[idx].prev].(next := p[idx].next)][p[idx].next := p[p[idx].next].(prev := p[idx].prev)])
    requires var idx := data[k];
      && (l.emptyTail == Null ==> r == q[idx := q[idx].(prev := Null, next := Null)])
      && (l.emptyTail != Null ==>
            r == q[l.emptyTail := q[l.emptyTail].(next := idx)][idx := q[idx].(prev := l.emptyTail, next := Null)])
    ensures Linked(r, Without(data, k), free + [data[k]]) && Flags(r, free, 0) && r[data[k]].hasData == 1
  {
    var p, idx := l.pointers, data[k];
    DataSlotLinks(l, data, free, k);
    assert k > 0 ==> data[k - 1] != idx && (|free| == 0 || data[k - 1] != free[|free| - 1]);
    assert k + 1 < |data| ==> data[k + 1] != idx && (|free| == 0 || data[k + 1] != free[|free| - 1]);
    assert |free| > 0 ==> free[|free| - 1] != idx;
    UnlinkKeepsLinks(p, r, data, free, k);
  }

  /**
   * After the two steps of `static_linked_listx_remove`, the fields
   * describe the data list without position `k` and the free list with
   * the moved slot appended.
   */
  lemma RemoveKeepsFields(l: List, data: seq<int>, free: seq<int>, k: int, l': List)
    requires Wellformed(l, data, free) && 0 <= k < |data| && 0 <= data[k] < |l.pointers|
    requires Linked(l'.pointers, Without(data, k), free + [data[k]])
    requires l'.itemSize == l.itemSize && l'.items == l.items && l'.size == l.size && |l'.pointers| == |l.pointers|
    requires l'.len == l.len - 1
    requires var p, idx := l.pointers, data[k];
      && (idx == l.head ==> l'.head == p[idx].next && l'.tail == (if p[idx].next == Null then Null else l.tail))
      && (idx != l.head ==> l'.head == l.head && l'.tail == (if idx == l.tail then p[idx].prev else l.tail))
      && l'.emptyTail == idx && l'.emptyHead == (if l.emptyTail == Null then idx else l.emptyHead)
    ensures Wellformed(l', Without(data, k), free + [data[k]])
  {
    DataSlotLinks(l, data, free, k);
    WithoutEnds(data, k);
  }

  /** Gathering without position `k` leaves out the item at position `k`. */
  lemma GatherWithout(a: seq<Item>, s: seq<int>, k: int)
    requires 0 <= k < |s| && forall i :: 0 <= i < |s| ==> 0 <= s[i] < |a|
    ensures Gather(a, Without(s, k)) == Without(Gather(a, s), k)
  {
    var s', g := Without(s, k), Gather(a, s);
    forall i | 0 <= i < |s'|
      ensures Gather(a, s')[i] == Without(g, k)[i]
    {
      GatherAt(a, s', i);
      GatherAt(a, s, if i < k then i else i + 1);
    }
  }

  /** Links agree wherever only flags were changed. */
  lemma SameLinks(p: seq<Pointer>, q: seq<Pointer>, s: seq<int>)
    requires |q| == |p| && forall x :: 0 <= x < |p| ==> q[x].next == p[x].next && q[x].prev == p[x].prev
    ensures NextLinks(p, s) ==> NextLinks(q, s)
    ensures PrevLinks(p, s) ==> PrevLinks(q, s)
  {
  }

  /**
   * Clearing the flag of the slot last appended to the free list, where
   * every other free slot is already cleared, restores the invariant.
   */
  lemma ClearFlagKeepsValid(l: List, data: seq<int>, free: seq<int>, idx: int, l': List)
    requires Wellformed(l, data, free + [idx]) && Flags(l.pointers, free, 0)
    requires 0 <= idx < |l.pointers| && l' == l.(pointers := l.pointers[idx := l.pointers[idx].(hasData := 0)])
    ensures Valid(l') && Data(l') == data && FreeSlots(l') == free + [idx]
  {
    var p, q, free' := l.pointers, l'.pointers, free + [idx];
    SameLinks(p, q, data);
    SameLinks(p, q, free');
    assert Flags(q, data, 1) by {
      forall i | 0 <= i < |data| ensures q[data[i]].hasData == 1 {
        assert free'[|free|] == idx;
      }
    }
    assert Flags(q, free', 0) by {
      forall i | 0 <= i < |free'| ensures q[free'[i]].hasData == 0 {
        if i < |free| {
          assert p[free[i]].hasData == 0;
        }
      }
    }
    assert Wellformed(l', data, free');
    WellformedWalks(l', data, free');
  }

  /**
   * Taking the data slot at position `k` out of the list, as
   * `static_linked_listx_remove` does: it leaves the data list, the rest
   * keeping its order, and is appended to the free list, with its flag
   * still set.
   */
  method Take(l: List, idx: int, ghost data: seq<int>, ghost free: seq<int>, ghost k: int) returns (l': List)
    requires Fields(l, data, free) && 0 <= k < |data| && data[k] == idx
    ensures Wellformed(l', Without(data, k), free + [idx]) && Flags(l'.pointers, free, 0)
    ensures 0 <= idx < |l'.pointers| && l'.pointers[idx].hasData == 1 && l'.items == l.items
  {
    DataSlotLinks(l, data, free, k);
    var q, head, tail := Unlink(l.pointers, idx, l.head, l.tail);
    var r, emptyHead, emptyTail := AppendFree(q, idx, l.emptyHead, l.emptyTail);
    l' := l.(pointers := r, head := head, tail := tail, len := l.len - 1,
             emptyHead := emptyHead, emptyTail := emptyTail);
    RemoveKeepsLinks(l, data, free, k, q, r);
    RemoveKeepsFields(l, data, free, k, l');
  }

  /**
   * `static_linked_listx_remove` as written: 1 for a missing list, an
   * index out of range or a slot whose flag says it holds no data.
   * Otherwise the slot leaves the data list and joins the free list, but
   * its flag is never cleared, so the result breaks the invariant: the
   * slot is free, yet a second removal of it passes the flag check.
   */
  method RemoveAsWritten(list: Option<List>, idx: int) returns (code: int, list': Option<List>)
    requires list.Some? ==> Valid(list.value)
    ensures code == (if list.None? || !(0 <= idx < list.value.size) || list.value.pointers[idx].hasData == 0 then 1 else 0)
    ensures list.Some? && 0 <= idx < list.value.size ==> (code == 0 <==> idx in Data(list.value))
    ensures code != 0 ==> list' == list
    ensures code == 0 ==>
      && list.Some? && list'.Some? && idx in Data(list.value)
      && (var l, l' := list.value, list'.value; var k := IndexOf(Data(l), idx);
          && Data(l') == Without(Data(l), k) && FreeSlots(l') == FreeSlots(l) + [idx]
          && Contents(l') == Without(Contents(l), k) && l'.len == l.len - 1
          && 0 <= idx < |l'.pointers| && l'.pointers[idx].hasData == 1 && idx !in Data(l') && !Valid(l'))
  {
    if list.None? || idx >= list.value.size || idx < 0 {
      return 1, list;
    }
    var l := list.value;
    FlagMeansData(l, idx);
    if l.pointers[idx].hasData == 0 {
      return 1, list;
    }
    ghost var data, free := Data(l), FreeSlots(l);
    ghost var k := IndexOf(data, idx);
    var l' := Take(l, idx, data, free, k);
    WellformedWalks(l', Without(data, k), free + [idx]);
    GatherWithout(l.items, data, k);
    assert (free + [idx])[|free|] == idx;
    return 0, Some(l');
  }

  /**
   * `static_linked_listx_remove` with the flag of the removed slot
   * cleared: the same outcome codes, and the slot leaves the data list
   * and joins the free list with the invariant kept.
   */
  method Remove(list: Option<List>, idx: int) returns (code: int, list': Option<List>)
    requires list.Some? ==> Valid(list.value)
    ensures code == (if list.None? || !(0 <= idx < list.value.size) || list.value.pointers[idx].hasData == 0 then 1 else 0)
    ensures list.Some? && 0 <= idx < list.value.size ==> (code == 0 <==> idx in Data(list.value))
    ensures code != 0 ==> list' == list
    ensures code == 0 ==>
      && list.Some? && list'.Some? && idx in Data(list.value)
      && (var l, l' := list.value, list'.value; var k := IndexOf(Data(l), idx);
          && Valid(l') && Data(l') == Without(Data(l), k) && FreeSlots(l') == FreeSlots(l) + [idx]
          && Contents(l') == Without(Contents(l), k) && l'.len == l.len - 1 && l'.size == l.size)
  {
    if list.None? || idx >= list.value.size || idx < 0 {
      return 1, list;
    }
    var l := list.value;
    FlagMeansData(l, idx);
    if l.pointers[idx].hasData == 0 {
      return 1, list;
    }
    ghost var data, free := Data(l), FreeSlots(l);
    ghost var k := IndexOf(data, idx);
    var taken := Take(l, idx, data, free, k);
    var l' := taken.(pointers := taken.pointers[idx := taken.pointers[idx].(hasData := 0)]);
    ClearFlagKeepsValid(taken, Without(data, k), free, idx, l');
    GatherWithout(l.items, data, k);
    return 0, Some(l');
  }

  /**
   * `static_linked_listx_get_next`: 1, with the outputs untouched, for a
   * missing list or output and an index out of range; 2, with Null and no
   * item, for a slot that holds no data.  Otherwise the slot after `pidx`
   * in the data list and its item, or Null and no item after the tail.
   */
  method GetNext(list: Option<List>, pidx: int, nidxGiven: bool, itemGiven: bool, nidx0: int, item0: Option<Item>)
    returns (code: int, nidx: int, item: Option<Item>)
    requires list.Some? ==> Valid(list.value)
    ensures code == (if list.None? || !(0 <= pidx < list.value.size) || !itemGiven || !nidxGiven then 1
                     else if list.value.pointers[pidx].hasData == 0 then 2 else 0)
    ensures code == 1 ==> nidx == nidx0 && item == item0
    ensures code == 2 ==> nidx == Null && item.None? && pidx !in Data(list.value)
    ensures code == 0 ==>
      && list.Some? && pidx in Data(list.value)
      && (var data, k := Data(list.value), IndexOf(Data(list.value), pidx);
          && (k + 1 < |data| ==> nidx == data[k + 1] && item == Some(Contents(list.value)[k + 1]))
          && (k + 1 == |data| ==> nidx == Null && item.None?))
  {
    if list.None? || pidx >= list.value.size || pidx < 0 || !itemGiven || !nidxGiven {
      return 1, nidx0, item0;
    }
    var l := list.value;
    nidx, item := Null, None;
    FlagMeansData(l, pidx);
    if l.pointers[pidx].hasData == 0 {
      return 2, nidx, item;
    }
    ghost var data, k := Data(l), IndexOf(Data(l), pidx);
    DataSlotLinks(l, data, FreeSlots(l), k);
    nidx := l.pointers[pidx].next;
    if nidx != Null {
      GatherAt(l.items, data, k + 1);
      item := Some(l.items[nidx]);
    }
    return 0, nidx, item;
  }

  /**
   * `static_linked_listx_get_first`: 1, with the outputs untouched, for a
   * missing list or output; otherwise the head of the data list and its
   * item, or Null and no item for an empty list.
   */
  method GetFirst(list: Option<List>, nidxGiven: bool, itemGiven: bool, nidx0: int, item0: Option<Item>)
    returns (code: int, nidx: int, item: Option<Item>)
    requires list.Some? ==> Valid(list.value)
    ensures code == (if list.None? || !itemGiven || !nidxGiven then 1 else 0)
    ensures code == 1 ==> nidx == nidx0 && item == item0
    ensures code == 0 ==>
      && list.Some?
      && (|Data(list.value)| > 0 ==> nidx == Data(list.value)[0] && item == Some(Contents(list.value)[0]))
      && (|Data(list.value)| == 0 ==> nidx == Null && item.None?)
  {
    if list.None? || !itemGiven || !nidxGiven {
      return 1, nidx0, item0;
    }
    var l := list.value;
    nidx, item := l.head, None;
    if nidx != Null {
      GatherAt(l.items, Data(l), 0);
      item := Some(l.items[nidx]);
    }
    return 0, nidx, item;
  }

  /**
   * `static_linked_listx_free`: 1 for a missing list; otherwise both
   * arrays are released and the four ends set to Null, leaving no data
   * and no free slots.  The structure itself is released too; the
   * returned value is its state just before that.
   */
  method Free(list: Option<List>) returns (code: int, list': Option<List>)
    ensures code == (if list.None? then 1 else 0)
    ensures code != 0 ==> list' == list
    ensures code == 0 ==> list'.Some? && Data(list'.value) == [] && FreeSlots(list'.value) == []
                          && Contents(list'.value) == [] && list'.value.items == []
  {
    if list.None? {
      return 1, list;
    }
    var l := list.value;
    l := l.(items := [], pointers := []);
    l := l.(head := Null, tail := Null, emptyHead := Null, emptyTail := Null);
    return 0, Some(l);
  }
}
