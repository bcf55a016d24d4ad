/**
 * Creating, opening, closing and destroying a queue (messageQx.c,
 * `msgqx_create`, `msgqx_open`, `msgqx_close`, `msgqx_destroy` and their
 * helpers), over the system's namespaces of named semaphores and
 * shared-memory segments.
 */
module MsgqLifecycle {
  import opened MsgqNaming
  import opened MsgqRing
  import opened MsgqProtocol

  /**
   * The named objects that exist in the system.  Opening a name yields the
   * object every other process sees under it.
   */
  class Namespace {
    var sems: map<string, Semaphore>
    var shms: map<string, MsgQueue>

    constructor ()
      ensures sems == map[] && shms == map[]
    {
      sems, shms := map[], map[];
    }

    /**
     * `_msgqx_destroy_sem`: `sem_unlink`, which fails (-1) on a missing name
     * or when the system refuses it (`refused`, e.g. a name owned by
     * another user); a refused name stays.
     */
    method UnlinkSem(n: string, refused: bool) returns (rc: int)
      modifies this
      ensures sems == old(sems) - (if refused then {} else {n}) && shms == old(shms)
      ensures rc == (if n in old(sems) && !refused then 0 else -1)
    {
      rc := if n in sems && !refused then 0 else -1;
      sems := sems - (if refused then {} else {n});
    }

    /** `_msgqx_destroy_shm`: `shm_unlink`, with the same failures as `UnlinkSem`. */
    method UnlinkShm(n: string, refused: bool) returns (rc: int)
      modifies this
      ensures shms == old(shms) - (if refused then {} else {n}) && sems == old(sems)
      ensures rc == (if n in old(shms) && !refused then 0 else -1)
    {
      rc := if n in shms && !refused then 0 else -1;
      shms := shms - (if refused then {} else {n});
    }
  }

  /**
   * How the system treats the segment step of `_msgqx_open_shm`, beside a
   * name that clashes or is missing: `shm_open` refuses (permissions,
   * descriptor limits), or it succeeds and the `ftruncate`, `fstat` or
   * `mmap` after it fails.  In the second case a create has already
   * brought the name into existence.
   */
  datatype ShmFault = ShmOk | ShmOpenFails | ShmSetupFails

  /**
   * Failures the system reports on its own when a step opens an object,
   * beside a name that clashes or is missing.
   */
  datatype StepFaults = StepFaults(recvSem: bool, sendSem: bool, mutexSem: bool, shm: ShmFault)

  /** Unlinks of `msgqx_destroy` the system refuses although the name may exist. */
  datatype DestroyFaults = DestroyFaults(recvSem: bool, sendSem: bool, mutexSem: bool, shm: bool)

  /** A destroy the system refuses nothing. */
  const NoRefusals := DestroyFaults(false, false, false, false)

  /** Failures of the individual releases `msgqx_close` attempts. */
  datatype CloseFaults = CloseFaults(recvSem: bool, sendSem: bool, mutexSem: bool, unmap: bool, fdClose: bool)

  /** `ret_val |= rc` for system results, which are 0 or -1. */
  function OrStatus(a: int, b: int): (r: int)
    requires (a == 0 || a == -1) && (b == 0 || b == -1)
    ensures r == 0 || r == -1
    ensures r == 0 <==> a == 0 && b == 0
  {
    if a == 0 then b else a
  }

  /**
   * The code `msgqx_create` returns: the first step that fails, in the
   * order receive semaphore (1), send semaphore (2), mutex (4), shared
   * memory (3).  Every step creates exclusively, so an existing name fails it.
   */
  function CreateCode(sems: set<string>, shms: set<string>, name: string, f: StepFaults): (code: int)
    ensures code == 0 || code == 1 || code == 2 || code == 3 || code == 4
    ensures code == 0 <==>
      && ObjName(name, RecvSem) !in sems && ObjName(name, SendSem) !in sems
      && ObjName(name, MutexSem) !in sems && ObjName(name, MsgqShm) !in shms
      && !f.recvSem && !f.sendSem && !f.mutexSem && f.shm == ShmOk
    ensures code == 1 <==> ObjName(name, RecvSem) in sems || f.recvSem
    ensures ObjName(name, MsgqShm) in shms ==> code != 0
  {
    if ObjName(name, RecvSem) in sems || f.recvSem then 1
    else if ObjName(name, SendSem) in sems || f.sendSem then 2
    else if ObjName(name, MutexSem) in sems || f.mutexSem then 4
    else if ObjName(name, MsgqShm) in shms || f.shm != ShmOk then 3
    else 0
  }

  /**
   * The code `msgqx_open` returns: the first step that fails, in the same
   * order as for create.  Every step opens an existing object, so a missing
   * name fails it.
   */
  function OpenCode(sems: set<string>, shms: set<string>, name: string, f: StepFaults): (code: int)
    ensures code == 0 || code == 1 || code == 2 || code == 3 || code == 4
    ensures code == 0 <==>
      && ObjName(name, RecvSem) in sems && ObjName(name, SendSem) in sems
      && ObjName(name, MutexSem) in sems && ObjName(name, MsgqShm) in shms
      && !f.recvSem && !f.sendSem && !f.mutexSem && f.shm == ShmOk
    ensures code == 1 <==> ObjName(name, RecvSem) !in sems || f.recvSem
  {
    if ObjName(name, RecvSem) !in sems || f.recvSem then 1
    else if ObjName(name, SendSem) !in sems || f.sendSem then 2
    else if ObjName(name, MutexSem) !in sems || f.mutexSem then 4
    else if ObjName(name, MsgqShm) !in shms || f.shm != ShmOk then 3
    else 0
  }

  /**
   * After a destroy that unlinked the receive semaphore, opening the queue
   * fails at its first step, whatever else was refused.
   */
  lemma OpenAfterDestroyFails(sems: set<string>, shms: set<string>, name: string, df: DestroyFaults, f: StepFaults)
    requires !df.recvSem
    ensures OpenCode(sems - UnlinkedSems(name, df), shms - UnlinkedShms(name, df), name, f) == 1
  {
  }

  /** After a destroy the system refused nothing, a create of the same name meets no clash. */
  lemma CreateAfterDestroySucceeds(sems: set<string>, shms: set<string>, name: string)
    ensures CreateCode(sems - UnlinkedSems(name, NoRefusals), shms - UnlinkedShms(name, NoRefusals), name,
                       StepFaults(false, false, false, ShmOk)) == 0
  {
  }

  /** Whatever an update wrote under a key of `keys`, removing `keys` undoes it. */
  lemma UpdateThenRemove<K, V>(m: map<K, V>, k: K, v: V, keys: set<K>)
    requires k in keys
    ensures m[k := v] - keys == m - keys
  {
  }

  /** Removing three key sets in turn removes their union. */
  lemma RemoveInTurn<K, V>(m: map<K, V>, a: set<K>, b: set<K>, c: set<K>)
    ensures ((m - a) - b) - c == m - (a + b + c)
  {
  }

  /**
   * A map `mid` that differs from `m` only under `keys`, with `some` of
   * those keys removed: the result still differs only under `keys`, lacks
   * every key of `some`, and when `some` is all of `keys` it is `m`
   * without them.
   */
  lemma RemoveWithin<K, V>(m: map<K, V>, mid: map<K, V>, r: map<K, V>, some: set<K>, keys: set<K>)
    requires some <= keys && mid - keys == m - keys && r == mid - some
    ensures r - keys == m - keys
    ensures r.Keys !! some
    ensures some == keys ==> r == m - keys
  {
    assert r - keys == mid - keys;
  }

  /** The three semaphore names of a queue. */
  function DestroyedSems(name: string): set<string>
  {
    {ObjName(name, RecvSem), ObjName(name, SendSem), ObjName(name, MutexSem)}
  }

  /** The semaphore names of a queue whose unlink the system does not refuse. */
  function UnlinkedSems(name: string, df: DestroyFaults): (u: set<string>)
    ensures u <= DestroyedSems(name)
    ensures df == NoRefusals ==> u == DestroyedSems(name)
    ensures ObjName(name, RecvSem) in u <==> !df.recvSem
  {
    (if df.recvSem then {} else {ObjName(name, RecvSem)})
    + (if df.sendSem then {} else {ObjName(name, SendSem)})
    + (if df.mutexSem then {} else {ObjName(name, MutexSem)})
  }

  /** The segment name of a queue, unless the system refuses its unlink. */
  function UnlinkedShms(name: string, df: DestroyFaults): set<string>
  {
    if df.shm then {} else {ObjName(name, MsgqShm)}
  }

  /**
   * `_msgqx_close_shm` as written: the result of `close` overwrites that of
   * `munmap`, so an unmap failure is lost whenever the descriptor is open.
   */
  function CloseShmAsWritten(mapped: bool, fdOpen: bool, f: CloseFaults): (rc: int)
    ensures rc == 0 || rc == -1
    ensures fdOpen ==> (rc == 0 <==> !f.fdClose)
  {
    var afterUnmap := if mapped then (if f.unmap then -1 else 0) else 0;
    if fdOpen then (if f.fdClose then -1 else 0) else afterUnmap
  }

  /** An unmap failure followed by a successful close is reported as success. */
  lemma CloseShmAsWrittenLosesUnmapFailure()
    ensures CloseShmAsWritten(true, true, CloseFaults(false, false, false, true, false)) == 0
  {
  }

  /**
   * `_msgqx_close_shm` as intended: both releases are attempted and their
   * failures are combined, like the other releases of `msgqx_close`.
   */
  function CloseShm(mapped: bool, fdOpen: bool, f: CloseFaults): (rc: int)
    ensures rc == 0 || rc == -1
    ensures rc == 0 <==> !(mapped && f.unmap) && !(fdOpen && f.fdClose)
  {
    OrStatus(if mapped && f.unmap then -1 else 0, if fdOpen && f.fdClose then -1 else 0)
  }

  /**
   * `msgqx_close`: release this process's references.  Every release is
   * attempted and any failure makes the result -1; a NULL handle yields 1.
   * The named objects stay in the namespace.
   */
  method Close(h: Handle?, f: CloseFaults) returns (code: int)
    ensures h == null ==> code == 1
    ensures h != null ==> code == 0 || code == -1
    ensures h != null ==>
      (code == 0 <==>
         && !(h.hasMsg != null && f.recvSem)
         && !(h.hasSlot != null && f.sendSem)
         && !(h.mutex != null && f.mutexSem)
         && !(h.mem != null && (f.unmap || (h.shmFd != -1 && f.fdClose))))
  {
    if h == null {
      return 1;
    }
    code := 0;
    code := OrStatus(code, if h.hasMsg != null && f.recvSem then -1 else 0);
    code := OrStatus(code, if h.hasSlot != null && f.sendSem then -1 else 0);
    code := OrStatus(code, if h.mutex != null && f.mutexSem then -1 else 0);
    if h.mem != null {
      code := OrStatus(code, CloseShm(true, h.shmFd != -1, f));
    }
  }

  /**
   * `msgqx_destroy`: unlink all four names at once, whoever still holds the
   * queue open; an unlink the system refuses leaves its name.  The result
   * is -1 when any of them was already missing or refused.
   */
  method Destroy(ns: Namespace, name: string, df: DestroyFaults) returns (code: int)
    requires FitsNameBuffer(name)
    modifies ns
    ensures ns.sems == old(ns.sems) - UnlinkedSems(name, df)
    ensures ns.shms == old(ns.shms) - UnlinkedShms(name, df)
    ensures code == 0 || code == -1
    ensures code == 0 <==>
      && DestroyedSems(name) <= old(ns.sems.Keys) && ObjName(name, MsgqShm) in old(ns.shms)
      && df == NoRefusals
  {
    code := UnlinkSems(ns, name, df);
    var rc := ns.UnlinkShm(ObjName(name, MsgqShm), df.shm);
    code := OrStatus(code, rc);
  }

  /** The three semaphore unlinks of `msgqx_destroy`, with their results OR-ed. */
  method UnlinkSems(ns: Namespace, name: string, df: DestroyFaults) returns (code: int)
    modifies ns
    ensures ns.sems == old(ns.sems) - UnlinkedSems(name, df) && ns.shms == old(ns.shms)
    ensures code == 0 || code == -1
    ensures code == 0 <==> DestroyedSems(name) <= old(ns.sems.Keys) && !df.recvSem && !df.sendSem && !df.mutexSem
  {
    var r, s, m := ObjName(name, RecvSem), ObjName(name, SendSem), ObjName(name, MutexSem);
    ObjNamesDistinct(name, RecvSem, SendSem);
    ObjNamesDistinct(name, RecvSem, MutexSem);
    ObjNamesDistinct(name, SendSem, MutexSem);
    ghost var sems := ns.sems;
    code := 0;
    var rc := ns.UnlinkSem(r, df.recvSem);
    code := OrStatus(code, rc);
    rc := ns.UnlinkSem(s, df.sendSem);
    code := OrStatus(code, rc);
    rc := ns.UnlinkSem(m, df.mutexSem);
    code := OrStatus(code, rc);
    RemoveInTurn(sems, if df.recvSem then {} else {r}, if df.sendSem then {} else {s},
                 if df.mutexSem then {} else {m});
  }

  /**
   * `_msgqx_open_sem` in exclusive mode: a new semaphore with count
   * `value` under `n`, unless the name exists or the system refuses.
   */
  method CreateSem(ns: Namespace, n: string, value: nat, fault: bool) returns (sem: Semaphore?)
    modifies ns
    ensures ns.shms == old(ns.shms)
    ensures sem == null <==> n in old(ns.sems) || fault
    ensures sem == null ==> ns.sems == old(ns.sems)
    ensures sem != null ==> fresh(sem) && sem.count == value && ns.sems == old(ns.sems)[n := sem]
  {
    if n in ns.sems || fault {
      return null;
    }
    sem := new Semaphore(value);
    ns.sems := ns.sems[n := sem];
  }

  /**
   * `_msgqx_open_shm` in exclusive mode followed by `_init_msgqx_q`: a new
   * segment sized for the header and `len` slots of `size` bytes, mapped
   * and initialised, unless the name exists or the system refuses.  When
   * `ftruncate` or `mmap` fails, the segment `shm_open` created stays under
   * `n`, unsized or unmapped.
   */
  method CreateShm(ns: Namespace, n: string, size: nat, len: nat, fault: ShmFault) returns (mem: MsgQueue?)
    requires 0 < len
    modifies ns
    ensures ns.sems == old(ns.sems)
    ensures mem == null <==> n in old(ns.shms) || fault != ShmOk
    ensures mem == null && (n in old(ns.shms) || fault == ShmOpenFails) ==> ns.shms == old(ns.shms)
    ensures mem == null && n !in old(ns.shms) && fault == ShmSetupFails ==>
      n in ns.shms && fresh(ns.shms[n]) && ns.shms == old(ns.shms)[n := ns.shms[n]]
    ensures mem != null ==>
      && fresh(mem) && fresh(mem.slots) && mem.Valid()
      && mem.msgSize == size && mem.qlen == len && mem.msgCnt == 0 && mem.Contents() == []
      && ns.shms == old(ns.shms)[n := mem]
  {
    if n in ns.shms || fault == ShmOpenFails {
      return null;
    }
    if fault == ShmSetupFails {
      var created := new MsgQueue.Map(0, 0);
      ns.shms := ns.shms[n := created];
      return null;
    }
    mem := new MsgQueue.Map(size, len);
    ns.shms := ns.shms[n := mem];
    mem.Init(size, len);
  }

  /**
   * The first three steps of `msgqx_create`: the receive (0), send (`len`)
   * and mutex (0) semaphores, each created exclusively, stored in the
   * handle in that order until one fails (code 1, 2 or 4).
   */
  method CreateSems(ns: Namespace, name: string, len: nat, f: StepFaults, h: Handle) returns (code: int)
    requires h.hasMsg == null && h.hasSlot == null && h.mutex == null
    modifies ns, h
    ensures ns.shms == old(ns.shms) && h.mem == old(h.mem) && h.shmFd == old(h.shmFd)
    ensures code == (if ObjName(name, RecvSem) in old(ns.sems) || f.recvSem then 1
                     else if ObjName(name, SendSem) in old(ns.sems) || f.sendSem then 2
                     else if ObjName(name, MutexSem) in old(ns.sems) || f.mutexSem then 4
                     else 0)
    ensures code != 0 ==> ns.sems - DestroyedSems(name) == old(ns.sems) - DestroyedSems(name)
    ensures code == 0 ==>
      && h.hasMsg != null && h.hasSlot != null && h.mutex != null
      && fresh(h.hasMsg) && fresh(h.hasSlot) && fresh(h.mutex)
      && h.hasMsg != h.hasSlot && h.hasMsg != h.mutex && h.hasSlot != h.mutex
      && h.hasMsg.count == 0 && h.hasSlot.count == len && h.mutex.count == 0
      && ns.sems == old(ns.sems)[ObjName(name, RecvSem) := h.hasMsg][ObjName(name, SendSem) := h.hasSlot]
                                [ObjName(name, MutexSem) := h.mutex]
  {
    var r, s, m := ObjName(name, RecvSem), ObjName(name, SendSem), ObjName(name, MutexSem);
    ObjNamesDistinct(name, RecvSem, SendSem);
    ObjNamesDistinct(name, RecvSem, MutexSem);
    ObjNamesDistinct(name, SendSem, MutexSem);
    ghost var D := DestroyedSems(name);
    h.hasMsg := CreateSem(ns, r, 0, f.recvSem);
    UpdateThenRemove(old(ns.sems), r, h.hasMsg, D);
    if h.hasMsg == null {
      return 1;
    }
    ghost var sems1 := ns.sems;
    h.hasSlot := CreateSem(ns, s, len, f.sendSem);
    UpdateThenRemove(sems1, s, h.hasSlot, D);
    if h.hasSlot == null {
      return 2;
    }
    ghost var sems2 := ns.sems;
    h.mutex := CreateSem(ns, m, 0, f.mutexSem);
    UpdateThenRemove(sems2, m, h.mutex, D);
    if h.mutex == null {
      return 4;
    }
    code := 0;
  }

  /**
   * `msgqx_create`: create the three semaphores (0, `len`, 0) and the
   * segment, each exclusively, write the header and release the mutex.  On
   * a failure the handle is closed, all four names of `name` are unlinked
   * (also those of a queue that already existed under that name) unless
   * the system refuses (`df`), and the handle becomes NULL.  `fd` is the
   * descriptor the system hands out.
   */
  method Create(ns: Namespace, name: string, size: int, len: int, f: StepFaults, fd: nat, df: DestroyFaults)
    returns (code: int, h: Handle?)
    requires FitsNameBuffer(name) && 0 <= size && 0 < len
    modifies ns
    ensures code == CreateCode(old(ns.sems.Keys), old(ns.shms.Keys), name, f)
    ensures code != 0 ==> h == null
    // on a failure no other name changes, and every unlink not refused took its name away
    ensures code != 0 ==> ns.sems - DestroyedSems(name) == old(ns.sems) - DestroyedSems(name)
    ensures code != 0 ==> ns.shms - {ObjName(name, MsgqShm)} == old(ns.shms) - {ObjName(name, MsgqShm)}
    ensures code != 0 ==> ns.sems.Keys !! UnlinkedSems(name, df) && ns.shms.Keys !! UnlinkedShms(name, df)
    ensures code != 0 && df == NoRefusals ==>
      ns.sems == old(ns.sems) - DestroyedSems(name) && ns.shms == old(ns.shms) - {ObjName(name, MsgqShm)}
    ensures code == 0 ==>
      && h != null && h.hasMsg != null && h.hasSlot != null && h.mutex != null && h.mem != null
      && fresh(h) && fresh(h.hasMsg) && fresh(h.hasSlot) && fresh(h.mutex) && fresh(h.mem) && fresh(h.mem.slots)
      && h.Valid() && h.Consistent() && h.shmFd == fd
      && h.mem.msgSize == size && h.mem.qlen == len && h.mem.Contents() == []
      && ns.sems == old(ns.sems)[ObjName(name, RecvSem) := h.hasMsg][ObjName(name, SendSem) := h.hasSlot]
                                [ObjName(name, MutexSem) := h.mutex]
      && ns.shms == old(ns.shms)[ObjName(name, MsgqShm) := h.mem]
  {
    var q := ObjName(name, MsgqShm);
    h := new Handle();
    code := CreateSems(ns, name, len, f, h);
    if code == 0 {
      code := CreateSegment(ns, q, size, len, f.shm, fd, h);
      if code == 0 {
        UpdateThenRemove(old(ns.shms), q, h.mem, {q});
      } else if q in ns.shms {
        UpdateThenRemove(old(ns.shms), q, ns.shms[q], {q});
      }
    }
    if code != 0 {
      assert ns.shms - {q} == old(ns.shms) - {q};
      Abandon(ns, name, h, df, old(ns.sems), old(ns.shms));
      h := null;
    }
  }

  /**
   * The last steps of `msgqx_create`: the segment, created exclusively and
   * initialised (code 3 when that fails), then the mutex released.
   */
  method CreateSegment(ns: Namespace, q: string, size: nat, len: nat, fault: ShmFault, fd: nat, h: Handle)
    returns (code: int)
    requires 0 < len && h.mem == null && h.mutex != null && h.hasMsg != null && h.hasSlot != null
    requires h.hasMsg.count == 0 && h.hasSlot.count == len && h.mutex.count == 0
    requires h.hasMsg != h.hasSlot && h.hasMsg != h.mutex && h.hasSlot != h.mutex
    modifies ns, h, h.mutex
    ensures ns.sems == old(ns.sems)
    ensures h.hasMsg == old(h.hasMsg) && h.hasSlot == old(h.hasSlot) && h.mutex == old(h.mutex)
    ensures unchanged(h.hasMsg, h.hasSlot)
    ensures code == (if q in old(ns.shms) || fault != ShmOk then 3 else 0)
    ensures code != 0 ==> h.mem == null
    ensures code != 0 && (q in old(ns.shms) || fault == ShmOpenFails) ==> ns.shms == old(ns.shms)
    ensures code != 0 && q !in old(ns.shms) && fault == ShmSetupFails ==>
      q in ns.shms && fresh(ns.shms[q]) && ns.shms == old(ns.shms)[q := ns.shms[q]]
    ensures code == 0 ==>
      && h.mem != null && fresh(h.mem) && fresh(h.mem.slots)
      && h.Valid() && h.Consistent() && h.shmFd == fd
      && h.mem.msgSize == size && h.mem.qlen == len && h.mem.Contents() == []
      && ns.shms == old(ns.shms)[q := h.mem]
  {
    h.mem := CreateShm(ns, q, size, len, fault);
    if h.mem == null {
      return 3;
    }
    h.shmFd := fd;
    // the source ignores the result of this post
    var _ := h.mutex.Post(false);
    code := 0;
  }

  /**
   * The failure path of `msgqx_create`: close the handle and destroy the
   * queue.  `sems0` and `shms0` are the namespace before the create, from
   * which the current one differs only under the queue's four names.
   */
  method Abandon(ns: Namespace, name: string, h: Handle, df: DestroyFaults,
                 ghost sems0: map<string, Semaphore>, ghost shms0: map<string, MsgQueue>)
    requires FitsNameBuffer(name)
    requires ns.sems - DestroyedSems(name) == sems0 - DestroyedSems(name)
    requires ns.shms - {ObjName(name, MsgqShm)} == shms0 - {ObjName(name, MsgqShm)}
    modifies ns
    ensures ns.sems == old(ns.sems) - UnlinkedSems(name, df)
    ensures ns.shms == old(ns.shms) - UnlinkedShms(name, df)
    ensures ns.sems - DestroyedSems(name) == sems0 - DestroyedSems(name)
    ensures ns.shms - {ObjName(name, MsgqShm)} == shms0 - {ObjName(name, MsgqShm)}
    ensures ns.sems.Keys !! UnlinkedSems(name, df) && ns.shms.Keys !! UnlinkedShms(name, df)
    ensures df == NoRefusals ==>
      ns.sems == sems0 - DestroyedSems(name) && ns.shms == shms0 - {ObjName(name, MsgqShm)}
  {
    var _ := Close(h, CloseFaults(false, false, false, false, false));
    var _ := Destroy(ns, name, df);
    RemoveWithin(sems0, old(ns.sems), ns.sems, UnlinkedSems(name, df), DestroyedSems(name));
    RemoveWithin(shms0, old(ns.shms), ns.shms, UnlinkedShms(name, df), {ObjName(name, MsgqShm)});
  }

  /**
   * `msgqx_open`: open the four existing objects of `name`.  On success
   * the handle shares them with every other handle of the queue and `size`
   * is the header's message size; on a failure the handle is closed and
   * becomes NULL and `size` is 0.
   */
  method Open(ns: Namespace, name: string, f: StepFaults, fd: nat) returns (code: int, h: Handle?, size: int)
    requires FitsNameBuffer(name)
    ensures code == OpenCode(ns.sems.Keys, ns.shms.Keys, name, f)
    ensures code != 0 ==> h == null && size == 0
    ensures code == 0 ==>
      && h != null && h.mem != null
      && h.hasMsg == ns.sems[ObjName(name, RecvSem)]
      && h.hasSlot == ns.sems[ObjName(name, SendSem)]
      && h.mutex == ns.sems[ObjName(name, MutexSem)]
      && h.mem == ns.shms[ObjName(name, MsgqShm)]
      && h.shmFd == fd && size == h.mem.msgSize
  {
    h := new Handle();
    size := 0;
    var n := ObjName(name, RecvSem);
    if n !in ns.sems || f.recvSem {
      code := 1;
    } else {
      h.hasMsg := ns.sems[n];
      n := ObjName(name, SendSem);
      if n !in ns.sems || f.sendSem {
        code := 2;
      } else {
        h.hasSlot := ns.sems[n];
        n := ObjName(name, MutexSem);
        if n !in ns.sems || f.mutexSem {
          code := 4;
        } else {
          h.mutex := ns.sems[n];
          n := ObjName(name, MsgqShm);
          if n !in ns.shms || f.shm != ShmOk {
            code := 3;
          } else {
            h.shmFd := fd;
            h.mem := ns.shms[n];
            size := h.mem.msgSize;
            code := 0;
          }
        }
      }
    }
    if code != 0 {
      var _ := Close(h, CloseFaults(false, false, false, false, false));
      size := 0;
      h := null;
    }
  }
}
