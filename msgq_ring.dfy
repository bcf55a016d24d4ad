/**
 * The shared-memory layout of a queue (messageQx.c, `msgqx_q`,
 * `_init_msgqx_q`, `_msgqx_put_msg`, `_msgqx_get_msg`): a header
 * `{msg_size, qlen, first, msg_cnt}` followed by `qlen` slots of `msg_size`
 * bytes used as a ring buffer.
 */
module MsgqRing {
  import opened CLang

  /** One message: the `msg_size` bytes of one slot. */
  type Msg = seq<Byte>

  /** Slot index `x mod n` for `0 <= x < 2n`, without a division. */
  lemma ModWrap(x: int, n: int)
    requires n > 0 && 0 <= x < 2 * n
    ensures x % n == if x < n then x else x - n
  {
  }

  /** The messages held by `slots` from index `first` on, oldest first. */
  function RingView(slots: seq<Msg>, first: int, cnt: int): (r: seq<Msg>)
    requires 0 <= first < |slots| && 0 <= cnt <= |slots|
  {
    seq(cnt, i requires 0 <= i < cnt => slots[(first + i) % |slots|])
  }

  /**
   * Writing a message into slot `(first + cnt) % n` of a ring that is not
   * full appends it to the ring's contents.
   */
  lemma {:induction false} RingViewPut(slots: seq<Msg>, first: int, cnt: int, m: Msg)
    requires 0 <= first < |slots| && 0 <= cnt < |slots|
    ensures (first + cnt) % |slots| < |slots|
    ensures RingView(slots[(first + cnt) % |slots| := m], first, cnt + 1)
            == RingView(slots, first, cnt) + [m]
  {
    var n := |slots|;
    var p := (first + cnt) % n;
    var s' := slots[p := m];
    var lhs, rhs := RingView(s', first, cnt + 1), RingView(slots, first, cnt) + [m];
    forall i | 0 <= i < cnt + 1
      ensures lhs[i] == rhs[i]
    {
      ModWrap(first + i, n);
      ModWrap(first + cnt, n);
    }
  }

  /**
   * Reading slot `first` of a non-empty ring yields its oldest message, and
   * advancing `first` by one (mod n) drops exactly that message.
   */
  lemma {:induction false} RingViewGet(slots: seq<Msg>, first: int, cnt: int)
    requires 0 <= first < |slots| && 0 < cnt <= |slots|
    ensures 0 <= (first + 1) % |slots| < |slots|
    ensures RingView(slots, first, cnt)[0] == slots[first]
    ensures RingView(slots, (first + 1) % |slots|, cnt - 1) == RingView(slots, first, cnt)[1..]
  {
    var n := |slots|;
    var f' := (first + 1) % n;
    ModWrap(first + 1, n);
    ModWrap(first, n);
    var lhs, rhs := RingView(slots, f', cnt - 1), RingView(slots, first, cnt)[1..];
    forall i | 0 <= i < cnt - 1
      ensures lhs[i] == rhs[i]
    {
      ModWrap(f' + i, n);
      ModWrap(first + 1 + i, n);
    }
  }

  /**
   * The mapped shared region of one queue.  Every participant maps the same
   * region, so every handle of the queue refers to the same object.
   */
  class MsgQueue {
    var msgSize: int
    var qlen: int
    var first: int
    var msgCnt: int
    /** The `qlen` slots after the header. */
    const slots: array<Msg>

    ghost predicate Valid()
      reads this, slots
    {
      && 0 < qlen == slots.Length
      && 0 <= msgSize
      && 0 <= first < qlen
      && 0 <= msgCnt <= qlen
      && forall i :: 0 <= i < qlen ==> |slots[i]| == msgSize
    }

    /** The queued messages, oldest first. */
    ghost function Contents(): seq<Msg>
      reads this, slots
      requires Valid()
    {
      RingView(slots[..], first, msgCnt)
    }

    /**
     * A freshly sized and mapped segment of `sizeof(msgqx_q) + size * len`
     * bytes: the system zero-fills it, so header and slots read as zero.
     */
    constructor Map(size: nat, len: nat)
      ensures fresh(slots) && slots.Length == len
      ensures msgSize == 0 && qlen == 0 && first == 0 && msgCnt == 0
      ensures forall i :: 0 <= i < len ==> slots[i] == Zeros(size)
    {
      msgSize, qlen, first, msgCnt := 0, 0, 0, 0;
      slots := new Msg[len](_ => Zeros(size));
    }

    /** `_init_msgqx_q`: write the header of an empty queue. */
    method Init(size: int, len: int)
      requires 0 <= size && 0 < len == slots.Length
      requires forall i :: 0 <= i < len ==> |slots[i]| == size
      modifies this
      ensures Valid() && msgSize == size && qlen == len
      ensures first == 0 && msgCnt == 0 && Contents() == []
    {
      msgSize := size;
      qlen := len;
      first, msgCnt := 0, 0;
    }

    /**
     * `_msgqx_put_msg`: append `data` at slot `(first + msg_cnt) % qlen`.
     * A full ring (which the semaphores are meant to rule out) yields 2 and
     * no change.
     */
    method PutMsg(data: Msg) returns (code: int)
      requires Valid() && |data| == msgSize
      modifies this, slots
      ensures Valid() && msgSize == old(msgSize) && qlen == old(qlen) && first == old(first)
      ensures code == (if old(msgCnt) >= qlen then 2 else 0)
      ensures code == 2 ==> unchanged(this, slots)
      ensures code == 0 ==> msgCnt == old(msgCnt) + 1
      ensures code == 0 ==> slots[..] == old(slots[..])[(first + old(msgCnt)) % qlen := data]
      ensures code == 0 ==> Contents() == old(Contents()) + [data]
    {
      if msgCnt >= qlen {
        return 2;
      }
      var idx := (first + msgCnt) % qlen;
      RingViewPut(slots[..], first, msgCnt, data);
      slots[idx] := data;
      msgCnt := msgCnt + 1;
      code := 0;
    }

    /**
     * `_msgqx_get_msg`: copy the oldest message into the caller's buffer,
     * advance `first` and decrement `msg_cnt`.  An empty ring yields 2 and
     * leaves both the queue and the buffer `buf` as they were.
     */
    method GetMsg(buf: Msg) returns (code: int, out: Msg)
      requires Valid()
      modifies this
      ensures Valid() && msgSize == old(msgSize) && qlen == old(qlen)
      ensures code == (if old(msgCnt) <= 0 then 2 else 0)
      ensures code == 2 ==> out == buf && unchanged(this)
      ensures code == 0 ==> out == old(slots[first]) && out == old(Contents())[0]
      ensures code == 0 ==> first == (old(first) + 1) % qlen && msgCnt == old(msgCnt) - 1
      ensures code == 0 ==> Contents() == old(Contents())[1..]
    {
      if msgCnt <= 0 {
        return 2, buf;
      }
      RingViewGet(slots[..], first, msgCnt);
      out := slots[first];
      first := first + 1;
      first := first % qlen;
      msgCnt := msgCnt - 1;
      code := 0;
    }
  }
}
