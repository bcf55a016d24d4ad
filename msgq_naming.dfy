/**
 * Names of the four kernel objects behind one message queue
 * (messageQx.c, `_msgqx_get_obj_name`).
 *
 * A queue called `name` is made of a receive semaphore, a send semaphore, a
 * mutex semaphore and a shared-memory segment.  Each object is found by the
 * name `[/]MSGQXPPRE_<postfix>_<name>`; only the shared-memory segment gets
 * the leading '/'.
 */
module MsgqNaming {

  /** The object kinds (`msgqx_ty`). */
  datatype ObjKind = RecvSem | SendSem | MutexSem | MsgqShm

  const NamePrefix: string := "MSGQXPPRE"

  /** Size of the stack buffer every caller formats the name into. */
  const NameBufferSize: nat := 64

  /** Longest queue name whose object names (with the terminating NUL) fit the buffer. */
  const MaxQueueNameLength: nat := 50

  function Postfix(kind: ObjKind): char
  {
    match kind
    case RecvSem => 'r'
    case SendSem => 's'
    case MutexSem => 'm'
    case MsgqShm => 'q'
  }

  /** The object name `sprintf` writes for `name` and `kind`. */
  function ObjName(name: string, kind: ObjKind): (r: string)
    ensures |r| == |name| + |NamePrefix| + 3 + (if kind == MsgqShm then 1 else 0)
    ensures r[|r| - |name|..] == name
    ensures r[|r| - |name| - 2] == Postfix(kind)
    ensures (r[0] == '/') <==> kind == MsgqShm
  {
    (if kind == MsgqShm then "/" else "") + NamePrefix + "_" + [Postfix(kind)] + "_" + name
  }

  /** The four objects of one queue have pairwise distinct names. */
  lemma ObjNamesDistinct(name: string, k1: ObjKind, k2: ObjKind)
    requires k1 != k2
    ensures ObjName(name, k1) != ObjName(name, k2)
  {
  }

  /**
   * Naming is injective: two (queue, kind) pairs never share an object name,
   * so distinct queues never collide in the namespace.
   */
  lemma ObjNameInjective(n1: string, k1: ObjKind, n2: string, k2: ObjKind)
    requires ObjName(n1, k1) == ObjName(n2, k2)
    ensures n1 == n2 && k1 == k2
  {
    var r := ObjName(n1, k1);
    assert (k1 == MsgqShm) == (k2 == MsgqShm) by {
      assert (r[0] == '/') == (k1 == MsgqShm) == (k2 == MsgqShm);
    }
    assert |n1| == |n2|;
    assert n1 == r[|r| - |n1|..] == n2;
    assert Postfix(k1) == r[|r| - |n1| - 2] == Postfix(k2);
  }

  /** Every object name of `name`, with its terminating NUL, fits the name buffer. */
  predicate FitsNameBuffer(name: string)
  {
    forall kind: ObjKind :: |ObjName(name, kind)| + 1 <= NameBufferSize
  }

  /** A queue name fits exactly when it has at most 50 characters. */
  lemma FitsNameBufferIff(name: string)
    ensures FitsNameBuffer(name) <==> |name| <= MaxQueueNameLength
  {
    if FitsNameBuffer(name) {
      assert |ObjName(name, MsgqShm)| + 1 <= NameBufferSize;
    }
  }
}
