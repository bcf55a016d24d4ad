/**
 * The chained hash table of simple_hashx.c: `len` buckets, each a chain of
 * entries with the newest first, and a second list through every entry,
 * also newest first, used for enumeration.  Keys may repeat: a save never
 * replaces an older entry, it hides it.
 */
module SimpleHash {
  import opened Wrappers
  import opened CLang

  /**
   * One saved entry (`struct linked_list_item`): its key and its value.
   * The value is a union of a `long long` and a pointer, i.e. one 64-bit
   * word; `val` is that word, whichever member wrote it.
   */
  datatype Entry = Entry(key: int, val: int)

  /** The bucket `key % len` as simple_hashx.c computes it. */
  function BucketAsWritten(key: int, len: int): (b: int)
    requires len > 0
    ensures -len < b < len
    ensures key >= 0 ==> b == key % len
    ensures key < 0 ==> b <= 0
  {
    CMod(key, len)
  }

  /**
   * The key -1 yields the bucket index -1, outside the table, whenever
   * there is more than one bucket.
   */
  lemma NegativeKeyOutsideTable(len: int)
    requires len > 1
    ensures BucketAsWritten(-1, len) == -1
  {
    assert 1 % len == 1;
  }

  /** The bucket of `key` in a table of `len` buckets, always a valid index. */
  function Bucket(key: int, len: int): (b: int)
    requires len > 0
    ensures 0 <= b < len
  {
    key % len
  }

  /** For a non-negative key the bucket is the one the C computation gives. */
  lemma BucketAgrees(key: int, len: int)
    requires len > 0 && key >= 0
    ensures Bucket(key, len) == BucketAsWritten(key, len)
  {
  }

  /** The entries of `all` that belong to bucket `b`, in the order of `all`. */
  function Chain(all: seq<Entry>, b: int, len: int): (c: seq<Entry>)
    requires len > 0
    ensures |c| <= |all|
  {
    if |all| == 0 then []
    else (if Bucket(all[0].key, len) == b then [all[0]] else []) + Chain(all[1..], b, len)
  }

  /** An entry is in the chain of bucket `b` exactly when it is saved and falls into `b`. */
  lemma {:induction false} ChainMembers(all: seq<Entry>, b: int, len: int, e: Entry)
    requires len > 0
    ensures e in Chain(all, b, len) <==> e in all && Bucket(e.key, len) == b
  {
    if |all| > 0 {
      ChainMembers(all[1..], b, len, e);
      assert all == [all[0]] + all[1..];
    }
  }

  /** The value of the first (newest) entry with `key`, if any. */
  function Lookup(s: seq<Entry>, key: int): Option<int>
  {
    if |s| == 0 then None
    else if s[0].key == key then Some(s[0].val)
    else Lookup(s[1..], key)
  }

  /** `s` without its first (newest) entry with `key`. */
  function RemoveFirst(s: seq<Entry>, key: int): seq<Entry>
  {
    if |s| == 0 then []
    else if s[0].key == key then s[1..]
    else [s[0]] + RemoveFirst(s[1..], key)
  }

  /** A lookup finds nothing exactly when no entry has the key. */
  lemma {:induction false} LookupNone(s: seq<Entry>, key: int)
    ensures Lookup(s, key).None? <==> forall i :: 0 <= i < |s| ==> s[i].key != key
  {
    if |s| > 0 {
      LookupNone(s[1..], key);
      assert forall i :: 1 <= i < |s| ==> s[i] == s[1..][i - 1];
    }
  }

  /** A lookup finds the value at the first position holding the key. */
  lemma {:induction false} LookupAt(s: seq<Entry>, key: int, i: int)
    requires 0 <= i < |s| && s[i].key == key && forall j :: 0 <= j < i ==> s[j].key != key
    ensures Lookup(s, key) == Some(s[i].val)
  {
    if i > 0 {
      LookupAt(s[1..], key, i - 1);
    }
  }

  /** The newest entry with `key` is the first one in the bucket of `key`. */
  lemma {:induction false} ChainLookup(all: seq<Entry>, key: int, len: int)
    requires len > 0
    ensures Lookup(Chain(all, Bucket(key, len), len), key) == Lookup(all, key)
  {
    if |all| > 0 {
      var b := Bucket(key, len);
      var c, c' := Chain(all, b, len), Chain(all[1..], b, len);
      ChainLookup(all[1..], key, len);
      if Bucket(all[0].key, len) == b {
        assert c == [all[0]] + c';
        assert c[1..] == c';
      } else {
        assert c == c';
      }
    }
  }

  /**
   * Removing the newest entry with `key` from the all-items list removes it
   * from the bucket of `key` and leaves every other bucket as it was.
   */
  lemma ChainRemove(all: seq<Entry>, key: int, b: int, len: int)
    requires len > 0
    ensures Chain(RemoveFirst(all, key), b, len)
            == if b == Bucket(key, len) then RemoveFirst(Chain(all, b, len), key) else Chain(all, b, len)
  {
    if b == Bucket(key, len) {
      ChainRemoveSame(all, key, len);
    } else {
      ChainRemoveOther(all, key, b, len);
    }
  }

  /** Removal from the all-items list is removal from the bucket of the key. */
  lemma {:induction false} ChainRemoveSame(all: seq<Entry>, key: int, len: int)
    requires len > 0
    ensures Chain(RemoveFirst(all, key), Bucket(key, len), len)
            == RemoveFirst(Chain(all, Bucket(key, len), len), key)
  {
    if |all| > 0 {
      var a, rest, b := all[0], all[1..], Bucket(key, len);
      assert all == [a] + rest;
      ChainCons(a, rest, b, len);
      if a.key == key {
        RemoveFirstHead(a, rest, key);
        RemoveFirstHead(a, Chain(rest, b, len), key);
      } else {
        var r := RemoveFirst(rest, key);
        RemoveFirstCons(a, rest, key);
        ChainCons(a, r, b, len);
        ChainRemoveSame(rest, key, len);
        if Bucket(a.key, len) == b {
          RemoveFirstCons(a, Chain(rest, b, len), key);
        } else {
          assert [] + Chain(r, b, len) == Chain(r, b, len);
          assert [] + Chain(rest, b, len) == Chain(rest, b, len);
        }
      }
    }
  }

  /** Removal from the all-items list leaves the other buckets alone. */
  lemma {:induction false} ChainRemoveOther(all: seq<Entry>, key: int, b: int, len: int)
    requires len > 0 && b != Bucket(key, len)
    ensures Chain(RemoveFirst(all, key), b, len) == Chain(all, b, len)
  {
    if |all| > 0 {
      var a, rest := all[0], all[1..];
      assert all == [a] + rest;
      ChainCons(a, rest, b, len);
      if a.key == key {
        RemoveFirstHead(a, rest, key);
        assert [] + Chain(rest, b, len) == Chain(rest, b, len);
      } else {
        var r := RemoveFirst(rest, key);
        RemoveFirstCons(a, rest, key);
        ChainCons(a, r, b, len);
        ChainRemoveOther(rest, key, b, len);
      }
    }
  }

  /** The chain of a list with a new front entry. */
  lemma ChainCons(a: Entry, r: seq<Entry>, b: int, len: int)
    requires len > 0
    ensures Chain([a] + r, b, len) == (if Bucket(a.key, len) == b then [a] else []) + Chain(r, b, len)
  {
    assert ([a] + r)[0] == a && ([a] + r)[1..] == r;
  }

  /** Removing a key from a list whose front entry has another key. */
  lemma RemoveFirstCons(a: Entry, x: seq<Entry>, key: int)
    requires a.key != key
    ensures RemoveFirst([a] + x, key) == [a] + RemoveFirst(x, key)
  {
    assert ([a] + x)[0] == a && ([a] + x)[1..] == x;
  }

  /** Removing a key from a list whose front entry has it. */
  lemma RemoveFirstHead(a: Entry, x: seq<Entry>, key: int)
    requires a.key == key
    ensures RemoveFirst([a] + x, key) == x
  {
    assert ([a] + x)[0] == a && ([a] + x)[1..] == x;
  }

  /** Removing the entry at the first position with `key`. */
  lemma {:induction false} RemoveFirstAt(s: seq<Entry>, key: int, i: int)
    requires 0 <= i < |s| && s[i].key == key && forall j :: 0 <= j < i ==> s[j].key != key
    ensures RemoveFirst(s, key) == s[..i] + s[i + 1..]
  {
    var x := s[1..];
    assert s == [s[0]] + x;
    if i > 0 {
      RemoveFirstAt(x, key, i - 1);
      RemoveFirstCons(s[0], x, key);
      assert s[..i] == [s[0]] + x[..i - 1];
      assert s[i + 1..] == x[i..];
    } else {
      RemoveFirstHead(s[0], x, key);
    }
  }

  /** Removing the newest entry with one key leaves the lookup of every other key alone. */
  lemma {:induction false} RemoveKeepsOtherKeys(s: seq<Entry>, key: int, other: int)
    requires other != key
    ensures Lookup(RemoveFirst(s, key), other) == Lookup(s, other)
  {
    if |s| > 0 && s[0].key != key {
      RemoveKeepsOtherKeys(s[1..], key, other);
      var r := RemoveFirst(s[1..], key);
      assert ([s[0]] + r)[0] == s[0] && ([s[0]] + r)[1..] == r;
    }
  }

  /**
   * After removing the newest entry with `key`, a lookup of `key` finds the
   * next older entry with it, if there is one.
   */
  lemma {:induction false} RemoveRevealsOlder(s: seq<Entry>, key: int, i: int)
    requires 0 <= i < |s| && s[i].key == key && forall j :: 0 <= j < i ==> s[j].key != key
    ensures Lookup(RemoveFirst(s, key), key) == Lookup(s[i + 1..], key)
  {
    if i > 0 {
      RemoveRevealsOlder(s[1..], key, i - 1);
      var r := RemoveFirst(s[1..], key);
      assert ([s[0]] + r)[0] == s[0] && ([s[0]] + r)[1..] == r;
      assert s[1..][i..] == s[i + 1..];
    }
  }

  /** The number of entries in buckets `0..n-1`. */
  function ChainSizes(all: seq<Entry>, len: int, n: int): int
    requires len > 0
    decreases n
  {
    if n <= 0 then 0 else ChainSizes(all, len, n - 1) + |Chain(all, n - 1, len)|
  }

  /** The newest entry counts in buckets `0..n-1` exactly when its bucket is below `n`. */
  lemma {:induction false} ChainSizesFirst(all: seq<Entry>, len: int, n: int)
    requires len > 0 && |all| > 0
    ensures ChainSizes(all, len, n)
            == ChainSizes(all[1..], len, n) + (if 0 < n && Bucket(all[0].key, len) < n then 1 else 0)
    decreases n
  {
    if n > 0 {
      ChainSizesFirst(all, len, n - 1);
    }
  }

  /** Together, the buckets hold as many entries as the all-items list. */
  lemma {:induction false} ChainsCoverAll(all: seq<Entry>, len: int)
    requires len > 0
    ensures ChainSizes(all, len, len) == |all|
  {
    if |all| > 0 {
      ChainSizesFirst(all, len, len);
      ChainsCoverAll(all[1..], len);
    } else {
      ChainSizesEmpty(len, len);
    }
  }

  lemma {:induction false} ChainSizesEmpty(len: int, n: int)
    requires len > 0
    ensures ChainSizes([], len, n) == 0
    decreases n
  {
    if n > 0 {
      ChainSizesEmpty(len, n - 1);
    }
  }

  /**
   * The enumeration cursor after one more `get_next` call on a table of `n`
   * entries: the position of the entry reached, or None when done.
   */
  function NextHandle(n: nat, h: Option<nat>): Option<nat>
  {
    match h
    case None => if n > 0 then Some(0) else None
    case Some(i) => if i + 1 < n then Some(i + 1) else None
  }

  /** The cursor after `k` calls starting from a NULL handle. */
  function Cursor(n: nat, k: nat): Option<nat>
  {
    if k == 0 then None else NextHandle(n, Cursor(n, k - 1))
  }

  /**
   * Starting from a NULL handle, the first `n` calls visit the `n` entries
   * in order, newest first, and call `n + 1` ends the enumeration.
   */
  lemma {:induction false} EnumerationVisitsAll(n: nat, k: nat)
    requires k <= n
    ensures k < n ==> Cursor(n, k + 1) == Some(k)
    ensures k == n ==> Cursor(n, k + 1) == None
  {
    if k > 0 {
      EnumerationVisitsAll(n, k - 1);
    }
  }

  /** `struct simple_hashx_table`. */
  class Table {
    /** `len`: the number of buckets. */
    var len: int
    /** `table`: the bucket chains, each newest entry first. */
    const table: array<seq<Entry>>
    /** The all-items list from `all_head`, newest entry first. */
    var all: seq<Entry>

    /**
     * Every bucket holds exactly the entries of the all-items list whose
     * key falls into it, in the same order.
     */
    ghost predicate Valid()
      reads this, table
    {
      && 0 < len == table.Length
      && forall b :: 0 <= b < len ==> table[b] == Chain(all, b, len)
    }

    constructor (n: int)
      requires n > 0
      ensures Valid() && len == n && all == [] && fresh(table)
    {
      len := n;
      table := new seq<Entry>[n](_ => []);
      all := [];
    }
  }

  /**
   * `initialize_simple_hashx`: a table of `n` empty buckets, or no table
   * (code 1) when `n` is 0.
   */
  method Initialize(n: int) returns (code: int, t: Table?)
    requires n >= 0
    ensures n == 0 ==> code == 1 && t == null
    ensures n > 0 ==> code == 0 && t != null && fresh(t) && fresh(t.table)
                      && t.Valid() && t.len == n && t.all == []
  {
    if n == 0 {
      return 1, null;
    }
    t := new Table(n);
    code := 0;
  }

  /** The stored word: the integer when `valSel` is 0, the pointer otherwise. */
  function Word(valSel: int, intVal: int, pointer: int): int
  {
    if valSel == 0 then intVal else pointer
  }

  /**
   * `save_val_simple_hashx`: the new entry goes in front of its bucket's
   * chain and in front of the all-items list.  Afterwards a lookup of `key`
   * yields the new value and every other key looks up as before.
   */
  method Save(t: Table?, key: int, valSel: int, intVal: int, pointer: int) returns (code: int)
    requires t != null ==> t.Valid()
    modifies if t != null then {t, t.table} else {}
    ensures code == (if t == null then 1 else 0)
    ensures t != null ==> && t.Valid() && t.len == old(t.len)
                          && t.all == [Entry(key, Word(valSel, intVal, pointer))] + old(t.all)
                          && Lookup(t.all, key) == Some(Word(valSel, intVal, pointer))
                          && (forall k :: k != key ==> Lookup(t.all, k) == Lookup(old(t.all), k))
  {
    if t == null {
      return 1;
    }
    var e := Entry(key, Word(valSel, intVal, pointer));
    var index := Bucket(key, t.len);
    t.table[index] := [e] + t.table[index];
    t.all := [e] + t.all;
    forall b | 0 <= b < t.len
      ensures t.table[b] == Chain(t.all, b, t.len)
    {
      assert t.all[1..] == old(t.all);
    }
    code := 0;
  }

  /**
   * The position of the first entry with `key` in `chain`, or `|chain|`
   * when there is none: the search loop of get and remove.
   */
  method Find(chain: seq<Entry>, key: int) returns (i: int)
    ensures 0 <= i <= |chain|
    ensures forall j :: 0 <= j < i ==> chain[j].key != key
    ensures i < |chain| ==> chain[i].key == key
  {
    i := 0;
    while i < |chain| && chain[i].key != key
      invariant 0 <= i <= |chain|
      invariant forall j :: 0 <= j < i ==> chain[j].key != key
    {
      i := i + 1;
    }
  }

  /**
   * `get_val_simple_hashx`: code 1 without a table, 3 when the pointer is
   * selected but no pointer output is given, 2 when no entry has `key`,
   * otherwise 0 with the newest value saved under `key` in the selected
   * output.  An output that is not written keeps its value.
   */
  method Get(t: Table?, key: int, valSel: int, pointerGiven: bool, intOut0: int, ptrOut0: int)
    returns (code: int, intOut: int, ptrOut: int)
    requires t != null ==> t.Valid()
    ensures code == (if t == null then 1
                     else if valSel != 0 && !pointerGiven then 3
                     else if Lookup(t.all, key).None? then 2
                     else 0)
    ensures code == 0 ==> && t != null && Lookup(t.all, key).Some?
                          && (if valSel == 0 then intOut == Lookup(t.all, key).value && ptrOut == ptrOut0
                              else ptrOut == Lookup(t.all, key).value && intOut == intOut0)
    ensures code != 0 ==> intOut == intOut0 && ptrOut == ptrOut0
  {
    intOut, ptrOut := intOut0, ptrOut0;
    if t == null {
      return 1, intOut, ptrOut;
    }
    if valSel != 0 && !pointerGiven {
      return 3, intOut, ptrOut;
    }
    var chain := t.table[Bucket(key, t.len)];
    var i := Find(chain, key);
    ChainLookup(t.all, key, t.len);
    if i == |chain| {
      LookupNone(chain, key);
      return 2, intOut, ptrOut;
    }
    LookupAt(chain, key, i);
    if valSel == 0 {
      intOut := chain[i].val;
    } else {
      ptrOut := chain[i].val;
    }
    code := 0;
  }

  /**
   * `remove_val_simple_hashx`: code 1 without a table, 2 when no entry has
   * `key`, otherwise 0 with the newest entry with `key` unlinked from its
   * bucket and from the all-items list.
   */
  method Remove(t: Table?, key: int) returns (code: int)
    requires t != null ==> t.Valid()
    modifies if t != null then {t, t.table} else {}
    ensures code == (if t == null then 1 else if Lookup(old(t.all), key).None? then 2 else 0)
    ensures t != null ==> && t.Valid() && t.len == old(t.len)
                          && t.all == (if code == 0 then RemoveFirst(old(t.all), key) else old(t.all))
  {
    if t == null {
      return 1;
    }
    var index := Bucket(key, t.len);
    var chain := t.table[index];
    var i := Find(chain, key);
    ChainLookup(t.all, key, t.len);
    if i == |chain| {
      LookupNone(chain, key);
      return 2;
    }
    LookupAt(chain, key, i);
    RemoveFirstAt(chain, key, i);
    ghost var all0 := t.all;
    t.table[index] := chain[..i] + chain[i + 1..];
    t.all := RemoveFirst(t.all, key);
    forall b | 0 <= b < t.len
      ensures t.table[b] == Chain(t.all, b, t.len)
    {
      ChainRemove(all0, key, b, t.len);
    }
    code := 0;
  }

  /**
   * `get_next_simple_hashx`: code 1 without a table, without a handle, or
   * with neither output given.  Otherwise the handle moves to the first
   * entry (from NULL) or to the next one, newest first, and the selected
   * output receives that entry's value; past the last entry the handle
   * becomes NULL and the outputs keep their values.
   */
  method GetNext(t: Table?, valSel: int, handleGiven: bool, handle: Option<nat>,
                 intGiven: bool, pointerGiven: bool, intOut0: int, ptrOut0: int)
    returns (code: int, handle': Option<nat>, intOut: int, ptrOut: int)
    requires t != null ==> t.Valid()
    requires t != null && handle.Some? ==> handle.value < |t.all|
    requires intGiven || pointerGiven ==> if valSel == 0 then intGiven else pointerGiven
    ensures code == (if t == null || !handleGiven || (!intGiven && !pointerGiven) then 1 else 0)
    ensures code == 1 ==> handle' == handle && intOut == intOut0 && ptrOut == ptrOut0
    ensures code == 0 ==> t != null && handle' == NextHandle(|t.all|, handle)
    ensures code == 0 && handle'.Some? ==>
              && t != null && handle'.value < |t.all|
              && (if valSel == 0 then intOut == t.all[handle'.value].val && ptrOut == ptrOut0
                  else ptrOut == t.all[handle'.value].val && intOut == intOut0)
    ensures code == 0 && handle'.None? ==> intOut == intOut0 && ptrOut == ptrOut0
  {
    intOut, ptrOut, handle' := intOut0, ptrOut0, handle;
    if t == null || !handleGiven || (!intGiven && !pointerGiven) {
      return 1, handle', intOut, ptrOut;
    }
    handle' := NextHandle(|t.all|, handle);
    if handle'.Some? {
      if valSel == 0 {
        intOut := t.all[handle'.value].val;
      } else {
        ptrOut := t.all[handle'.value].val;
      }
    }
    code := 0;
  }

  /**
   * `cleanup_simple_hashx`: code 1 without a table; otherwise every chain
   * is walked and each entry released, so that exactly the saved entries
   * still in the table are released.
   */
  method Cleanup(t: Table?) returns (code: int, freed: nat)
    requires t != null ==> t.Valid()
    ensures code == (if t == null then 1 else 0)
    ensures code == 0 ==> t != null && freed == |t.all|
  {
    if t == null {
      return 1, 0;
    }
    freed := 0;
    var i := 0;
    while i < t.len
      invariant 0 <= i <= t.len
      invariant freed == ChainSizes(t.all, t.len, i)
    {
      var p := t.table[i];
      var j := 0;
      while j < |p|
        invariant 0 <= j <= |p|
        invariant freed == ChainSizes(t.all, t.len, i) + j
      {
        freed := freed + 1;
        j := j + 1;
      }
      i := i + 1;
    }
    ChainsCoverAll(t.all, t.len);
    code := 0;
  }
}
