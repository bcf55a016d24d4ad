/**
 * The send/receive protocol of the queue engine (messageQx.c,
 * `_msgqx_param_check`, `_msgqx_wait_sem`, `_msgqx_post_sem`, `_msgqx_send`,
 * `_msgqx_receive` and their blocking, try and timed wrappers).
 *
 * Each named semaphore is a counter shared by every handle of the queue; the
 * model follows one sequential trace, so a wait that cannot be satisfied at
 * once never gets satisfied later.  What the operating system decides on its
 * own (an interrupted or failing wait or post) is an `OsFaults` parameter.
 */
module MsgqProtocol {
  import opened Wrappers
  import opened MsgqRing

  /** `msgqx_wty`: how a wait behaves when the count is zero. */
  datatype WaitMode = BlockedWait | TryWait | TimedWait

  /** The error number a failed wait leaves in `errno`. */
  datatype WaitErrno = EAGAIN | ETIMEDOUT | EOTHER

  /**
   * The code `_msgqx_wait_sem` returns: 0 when the semaphore is taken,
   * 4 when a try-wait finds it at zero, 5 when a timed wait expires and 3
   * for any other failure.  A blocking wait on a zero count never returns
   * in a sequential trace, so it is excluded.
   */
  function WaitCode(count: nat, mode: WaitMode, fault: bool): (code: int)
    requires mode == BlockedWait ==> count > 0 || fault
    ensures code == 0 || code == 3 || code == 4 || code == 5
    ensures code == 0 <==> !fault && count > 0
    ensures code == 4 <==> mode == TryWait && !fault && count == 0
    ensures code == 5 <==> mode == TimedWait && !fault && count == 0
  {
    if fault then 3
    else if count > 0 then 0
    else if mode == TryWait then 4
    else 5
  }

  /** A named counting semaphore. */
  class Semaphore {
    var count: nat

    constructor (value: nat)
      ensures count == value
    {
      count := value;
    }

    /**
     * `_msgqx_wait_sem`: one `sem_wait`, `sem_trywait` or `sem_timedwait`
     * call, then the classification of its failure by mode and `errno`.
     * `fault` stands for a failure the system reports on its own (an
     * interrupted or invalid wait).
     */
    method Wait(mode: WaitMode, fault: bool) returns (code: int)
      requires mode == BlockedWait ==> count > 0 || fault
      modifies this
      ensures code == WaitCode(old(count), mode, fault)
      ensures code == 0 ==> count == old(count) - 1
      ensures code != 0 ==> unchanged(this)
    {
      var ok: bool;
      var errno: WaitErrno := EOTHER;
      if !fault && count > 0 {
        count := count - 1;
        ok := true;
      } else {
        ok := false;
        errno := if fault then EOTHER else if mode == TryWait then EAGAIN else ETIMEDOUT;
      }
      if ok {
        code := 0;
      } else if mode == TryWait && errno == EAGAIN {
        code := 4;
      } else if mode == TimedWait && errno == ETIMEDOUT {
        code := 5;
      } else {
        code := 3;
      }
    }

    /** `_msgqx_post_sem`: 0 and one more token, or 1 when `sem_post` fails. */
    method Post(fault: bool) returns (code: int)
      modifies this
      ensures code == (if fault then 1 else 0)
      ensures code == 0 ==> count == old(count) + 1
      ensures code != 0 ==> unchanged(this)
    {
      if fault {
        return 1;
      }
      count := count + 1;
      code := 0;
    }
  }

  /**
   * `msgqx_h`: one process's references to the queue's objects.  A null
   * semaphore or `mem` stands for `SEM_FAILED`/`NULL` and `MAP_FAILED`.
   */
  class Handle {
    var hasMsg: Semaphore?
    var hasSlot: Semaphore?
    var mutex: Semaphore?
    var shmFd: int
    var mem: MsgQueue?

    /** A freshly allocated handle after `_init_msgqx_handle`. */
    constructor ()
      ensures hasMsg == null && hasSlot == null && mutex == null && mem == null && shmFd == -1
    {
      hasMsg, hasSlot, mutex := null, null, null;
      mem := null;
      shmFd := -1;
    }

    /** The three semaphores are distinct objects and the mapped header is sound. */
    ghost predicate Valid()
      reads this, mem, if mem != null then {mem.slots} else {}
    {
      && (hasMsg != null && hasSlot != null ==> hasMsg != hasSlot)
      && (hasMsg != null && mutex != null ==> hasMsg != mutex)
      && (hasSlot != null && mutex != null ==> hasSlot != mutex)
      && (mem != null ==> mem.Valid())
    }

    /**
     * The counter invariant that holds between operations: the slot and
     * message tokens add up to the capacity, the message tokens equal the
     * header's `msg_cnt`, and the mutex is free.
     */
    ghost predicate Consistent()
      reads this, hasMsg, hasSlot, mutex, mem
    {
      && hasMsg != null && hasSlot != null && mutex != null && mem != null
      && hasSlot.count + hasMsg.count == mem.qlen
      && hasMsg.count == mem.msgCnt
      && mutex.count == 1
    }

    /** Everything the handle refers to. */
    ghost function Objects(): set<object>
      reads this
    {
      (if hasMsg != null then {hasMsg} else {})
      + (if hasSlot != null then {hasSlot} else {})
      + (if mutex != null then {mutex} else {})
      + (if mem != null then {mem, mem.slots} else {})
    }
  }

  /** `_msgqx_param_check` returns 0: handle, buffer and every reference are present. */
  predicate ArgsValid(h: Handle?, bufGiven: bool)
    reads h
    ensures ArgsValid(h, bufGiven) ==> h != null && bufGiven && h.mem != null
    ensures ArgsValid(h, bufGiven) ==> h.Objects() >= {h.hasMsg, h.hasSlot, h.mutex, h.mem}
  {
    h != null && bufGiven && h.mem != null
    && h.hasMsg != null && h.hasSlot != null && h.mutex != null
  }

  /** The failures the system may report during one send or receive. */
  datatype OsFaults = OsFaults(firstWait: bool, mutexWait: bool, mutexPost: bool, signalPost: bool)

  /** A blocking call can return: each wait it reaches finds a token or fails. */
  predicate CanReturn(first: Semaphore, mutex: Semaphore, mode: WaitMode, os: OsFaults)
    reads first, mutex
  {
    mode == BlockedWait ==>
      (first.count > 0 || os.firstWait) && (os.firstWait || mutex.count > 0 || os.mutexWait)
  }

  /**
   * `_msgqx_send` (and `msgqx_send`, `msgqx_trysend`, `msgqx_timedsend`,
   * which pass the blocking, try and timed mode): take a slot token, take
   * the mutex, append `data` to the ring, release the mutex, post a message
   * token.  `data == None` is a NULL buffer.
   */
  method Send(h: Handle?, data: Option<Msg>, mode: WaitMode, os: OsFaults) returns (code: int)
    requires h != null ==> h.Valid()
    requires ArgsValid(h, data.Some?) ==> |data.value| == h.mem.msgSize
    requires ArgsValid(h, data.Some?) ==> CanReturn(h.hasSlot, h.mutex, mode, os)
    modifies if h != null then h.Objects() else {}
    ensures h != null ==> unchanged(h)
    ensures h != null ==> h.Valid()
    ensures !ArgsValid(h, data.Some?) ==> code == 1
    // the first wait fails: its code, and nothing changes
    ensures ArgsValid(h, data.Some?) && WaitCode(old(h.hasSlot.count), mode, os.firstWait) != 0 ==>
      code == WaitCode(old(h.hasSlot.count), mode, os.firstWait)
      && unchanged(h.hasSlot, h.mutex, h.hasMsg, h.mem, h.mem.slots)
    // the mutex wait fails: its code, and the slot token is not given back
    ensures ArgsValid(h, data.Some?) && WaitCode(old(h.hasSlot.count), mode, os.firstWait) == 0 ==>
      var w := WaitCode(old(h.mutex.count), mode, os.mutexWait);
      w != 0 ==>
        && code == w
        && h.hasSlot.count == old(h.hasSlot.count) - 1
        && unchanged(h.mutex, h.hasMsg, h.mem, h.mem.slots)
    // both tokens taken
    ensures ArgsValid(h, data.Some?) && WaitCode(old(h.hasSlot.count), mode, os.firstWait) == 0
            && WaitCode(old(h.mutex.count), mode, os.mutexWait) == 0 ==>
      && h.hasSlot.count == old(h.hasSlot.count) - 1
      && (old(h.mem.msgCnt) >= h.mem.qlen ==>
            code == 2 && h.mutex.count == old(h.mutex.count) - 1 && unchanged(h.hasMsg, h.mem, h.mem.slots))
      && (old(h.mem.msgCnt) < h.mem.qlen ==>
            && h.mem.Contents() == old(h.mem.Contents()) + [data.value]
            && h.mutex.count == old(h.mutex.count) - (if os.mutexPost then 1 else 0)
            && h.hasMsg.count == old(h.hasMsg.count) + (if os.mutexPost || os.signalPost then 0 else 1)
            && code == (if os.mutexPost then 7 else if os.signalPost then 6 else 0))
    // what the counter invariant buys
    ensures h != null && old(h.Consistent()) ==> code != 2
    ensures ArgsValid(h, data.Some?) && old(h.Consistent()) && !os.mutexWait && !os.mutexPost && !os.signalPost ==>
      h.Consistent()
    ensures ArgsValid(h, data.Some?) && old(h.Consistent()) && mode == TryWait && !os.firstWait
            && old(h.mem.msgCnt) == h.mem.qlen ==>
      code == 4
    ensures !ArgsValid(h, data.Some?) && h != null ==>
      && (h.hasMsg != null ==> unchanged(h.hasMsg)) && (h.hasSlot != null ==> unchanged(h.hasSlot))
      && (h.mutex != null ==> unchanged(h.mutex)) && (h.mem != null ==> unchanged(h.mem, h.mem.slots))
  {
    if !ArgsValid(h, data.Some?) {
      return 1;
    }
    code := h.hasSlot.Wait(mode, os.firstWait);
    if code != 0 {
      return;
    }
    code := h.mutex.Wait(mode, os.mutexWait);
    if code != 0 {
      return;
    }
    code := h.mem.PutMsg(data.value);
    if code != 0 {
      return 2;
    }
    code := h.mutex.Post(os.mutexPost);
    if code != 0 {
      return 7;
    }
    code := h.hasMsg.Post(os.signalPost);
    if code != 0 {
      return 6;
    }
    code := 0;
  }

  /**
   * `_msgqx_receive` (and `msgqx_receive`, `msgqx_tryreceive`,
   * `msgqx_timedreceive`): take a message token, take the mutex, copy the
   * oldest message into the buffer, release the mutex, post a slot token.
   * `buf` is the caller's buffer (`None` for NULL) and `out` that buffer
   * afterwards: it is written once the message is taken from the ring, so
   * also when a later post fails (codes 7 and 6).
   */
  method Receive(h: Handle?, buf: Option<Msg>, mode: WaitMode, os: OsFaults) returns (code: int, out: Option<Msg>)
    requires h != null ==> h.Valid()
    requires ArgsValid(h, buf.Some?) ==> CanReturn(h.hasMsg, h.mutex, mode, os)
    modifies if h != null then h.Objects() else {}
    ensures h != null ==> unchanged(h)
    ensures h != null ==> h.Valid()
    ensures code != 0 && code != 6 && code != 7 ==> out == buf
    ensures !ArgsValid(h, buf.Some?) ==> code == 1
    // the first wait fails: its code, and nothing changes
    ensures ArgsValid(h, buf.Some?) && WaitCode(old(h.hasMsg.count), mode, os.firstWait) != 0 ==>
      code == WaitCode(old(h.hasMsg.count), mode, os.firstWait)
      && unchanged(h.hasMsg, h.mutex, h.hasSlot, h.mem, h.mem.slots)
    // the mutex wait fails: its code, and the message token is not given back
    ensures ArgsValid(h, buf.Some?) && WaitCode(old(h.hasMsg.count), mode, os.firstWait) == 0 ==>
      var w := WaitCode(old(h.mutex.count), mode, os.mutexWait);
      w != 0 ==>
        && code == w
        && h.hasMsg.count == old(h.hasMsg.count) - 1
        && unchanged(h.mutex, h.hasSlot, h.mem, h.mem.slots)
    // both tokens taken
    ensures ArgsValid(h, buf.Some?) && WaitCode(old(h.hasMsg.count), mode, os.firstWait) == 0
            && WaitCode(old(h.mutex.count), mode, os.mutexWait) == 0 ==>
      && h.hasMsg.count == old(h.hasMsg.count) - 1
      && unchanged(h.mem.slots)
      && (old(h.mem.msgCnt) <= 0 ==>
            code == 2 && h.mutex.count == old(h.mutex.count) - 1 && unchanged(h.hasSlot, h.mem))
      && (old(h.mem.msgCnt) > 0 ==>
            && out == Some(old(h.mem.Contents())[0])
            && h.mem.Contents() == old(h.mem.Contents())[1..]
            && h.mutex.count == old(h.mutex.count) - (if os.mutexPost then 1 else 0)
            && h.hasSlot.count == old(h.hasSlot.count) + (if os.mutexPost || os.signalPost then 0 else 1)
            && code == (if os.mutexPost then 7 else if os.signalPost then 6 else 0))
    // what the counter invariant buys
    ensures h != null && old(h.Consistent()) ==> code != 2
    ensures ArgsValid(h, buf.Some?) && old(h.Consistent()) && !os.mutexWait && !os.mutexPost && !os.signalPost ==>
      h.Consistent()
    ensures ArgsValid(h, buf.Some?) && old(h.Consistent()) && mode == TryWait && !os.firstWait
            && old(h.mem.msgCnt) == 0 ==>
      code == 4
    ensures !ArgsValid(h, buf.Some?) && h != null ==>
      && (h.hasMsg != null ==> unchanged(h.hasMsg)) && (h.hasSlot != null ==> unchanged(h.hasSlot))
      && (h.mutex != null ==> unchanged(h.mutex)) && (h.mem != null ==> unchanged(h.mem, h.mem.slots))
  {
    out := buf;
    if !ArgsValid(h, buf.Some?) {
      return 1, out;
    }
    code := h.hasMsg.Wait(mode, os.firstWait);
    if code != 0 {
      return;
    }
    code := h.mutex.Wait(mode, os.mutexWait);
    if code != 0 {
      return;
    }
    var m: Msg;
    code, m := h.mem.GetMsg(buf.value);
    if code != 0 {
      return 2, out;
    }
    out := Some(m);
    code := h.mutex.Post(os.mutexPost);
    if code != 0 {
      return 7, out;
    }
    code := h.hasSlot.Post(os.signalPost);
    if code != 0 {
      return 6, out;
    }
    code := 0;
  }
}
