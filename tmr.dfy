/*
 * Task management (target_core_tmr.c): ABORT TASK over a session's command
 * list, and LOGICAL UNIT RESET draining a device's command queue under the
 * TASK ABORTED STATUS policy, with the PREEMPT AND ABORT key filter, the
 * release of a legacy SPC-2 reservation and the reset counter.
 *
 * Commands on the lists are records; the lists are sequences the methods
 * reassign. Locks and waits are atomic steps. The transport and fabric
 * routines a step calls (transport_send_task_abort,
 * transport_cmd_finish_abort, target_put_sess_cmd, the backend's
 * do_lun_reset, the waits) are not modelled: each call is recorded, in
 * order, in the sequence of calls a method returns.
 */
module Tmr {
  import opened Common

  /**
   * A struct se_cmd as task management sees it: `id` stands for its
   * address, `dev` for its se_dev, `tag` for what the fabric's get_task_tag
   * returns, and `nacl` for its session's node ACL (None when NULL).
   */
  datatype Cmd = Cmd(
    id: nat,
    dev: nat,
    tag: nat,
    complete: bool,   // CMD_T_COMPLETE
    aborted: bool,    // CMD_T_ABORTED
    queued: bool,     // CMD_T_QUEUED
    tmrCdb: bool,     // SCF_SCSI_TMR_CDB
    ackKref: bool,    // SCF_ACK_KREF
    feCount: nat,     // t_fe_count
    prResKey: u64,
    nacl: Option<nat>)

  /** A call into the transport, the session or the backend, in the order made. */
  datatype Call =
    | GetRef(id: nat)                  // kref_get
    | CancelAndWait(id: nat)           // cancel_work_sync + transport_wait_for_tasks
    | SendTaskAbort(cmd: Cmd)          // transport_send_task_abort, with the command's state
    | FinishAbort(id: nat, remove: bool) // transport_cmd_finish_abort
    | PutSessCmd(id: nat)              // target_put_sess_cmd
    | LunResetCall                     // dev->transport->do_lun_reset
    | WaitForReset                     // wait_for_completion_interruptible

  datatype TmrResponse = FunctionComplete | TaskDoesNotExist

  // ---------------------------------------------------------------
  // The TAS policy (core_tmr_handle_tas_abort)
  // ---------------------------------------------------------------

  /** The commands finished, in order. */
  function Finished(calls: seq<Call>): seq<nat>
  {
    if calls == [] then []
    else (if calls[0].FinishAbort? then [calls[0].id] else []) + Finished(calls[1..])
  }

  /** The commands sent TASK ABORTED status, in order. */
  function SentAborted(calls: seq<Call>): seq<nat>
  {
    if calls == [] then []
    else (if calls[0].SendTaskAbort? then [calls[0].cmd.id] else []) + SentAborted(calls[1..])
  }

  /**
   * The resetting initiator's nexus is the command's own: the TMR came
   * with a node ACL and it is the one of the command's session.
   */
  predicate SameNexus(tmrNacl: Option<nat>, c: Cmd)
  {
    tmrNacl.Some? && tmrNacl == c.nacl
  }

  /**
   * core_tmr_handle_tas_abort: with no front-end reference left the
   * command is finished as an abort and removed; otherwise TASK ABORTED
   * status is sent first when the reset came over the command's own
   * nexus or TAS is set, and the command is finished.
   */
  function TasAbort(tmrNacl: Option<nat>, c: Cmd, tas: bool, feCount: nat): (calls: seq<Call>)
    ensures 1 <= |calls| <= 2
    ensures calls[|calls| - 1] == FinishAbort(c.id, feCount == 0)
    ensures |calls| == 2 <==> feCount > 0 && (SameNexus(tmrNacl, c) || tas)
    ensures |calls| == 2 ==> calls[0] == SendTaskAbort(c)
  {
    if feCount == 0 then [FinishAbort(c.id, true)]
    else if SameNexus(tmrNacl, c) || tas then [SendTaskAbort(c), FinishAbort(c.id, false)]
    else [FinishAbort(c.id, false)]
  }

  /**
   * The policy: the command is finished exactly once, as its last step,
   * removed exactly when no front-end reference remains; TASK ABORTED is
   * sent exactly when a front-end reference remains and the reset came
   * over its own nexus or TAS is set.
   */
  lemma TasPolicy(tmrNacl: Option<nat>, c: Cmd, tas: bool, feCount: nat)
    ensures var calls := TasAbort(tmrNacl, c, tas, feCount);
      Finished(calls) == [c.id]
      && calls[|calls| - 1] == FinishAbort(c.id, feCount == 0)
      && (SentAborted(calls) == [c.id] <==> feCount > 0 && (SameNexus(tmrNacl, c) || tas))
      && (SentAborted(calls) == [] <==> !(feCount > 0 && (SameNexus(tmrNacl, c) || tas)))
  {
    var calls := TasAbort(tmrNacl, c, tas, feCount);
    if feCount > 0 && (SameNexus(tmrNacl, c) || tas) {
      assert calls == [SendTaskAbort(c)] + [FinishAbort(c.id, false)];
      assert Finished([FinishAbort(c.id, false)]) == [c.id];
      assert SentAborted([FinishAbort(c.id, false)]) == [];
    }
  }

  // ---------------------------------------------------------------
  // The PREEMPT AND ABORT filter (target_check_cdb_and_preempt)
  // ---------------------------------------------------------------

  /** Some registration on the abort list carries `key`. */
  function KeyListed(keys: seq<u64>, key: u64): (listed: bool)
    ensures listed <==> key in keys
  {
    if keys == [] then false
    else keys[0] == key || KeyListed(keys[1..], key)
  }

  /**
   * target_check_cdb_and_preempt: true when the command is to be left
   * alone. Without an abort list every command is processed; with one,
   * exactly those whose reservation key some registration on it carries.
   */
  function PreemptSkips(list: Option<seq<u64>>, key: u64): (skip: bool)
    ensures skip <==> list.Some? && key !in list.value
  {
    if list.None? then false else !KeyListed(list.value, key)
  }

  // ---------------------------------------------------------------
  // Sessions, TMR requests and devices
  // ---------------------------------------------------------------

  /** struct se_session: its node ACL and the commands it has outstanding. */
  class Session {
    const nodeAcl: Option<nat>
    var cmdList: seq<Cmd>

    constructor(nodeAcl: Option<nat>, cmds: seq<Cmd>)
      ensures this.nodeAcl == nodeAcl && cmdList == cmds
    {
      this.nodeAcl := nodeAcl;
      cmdList := cmds;
    }
  }

  /** The se_cmd that carries a task management request and its struct se_tmr_req. */
  class TmrCmd {
    const sess: Session?
    var tmrCdb: bool
    var taskCmd: TmrCmd?
    var fabricTmrPtr: nat
    var tmrFunction: byte
    var refTaskTag: nat
    var response: Option<TmrResponse>

    constructor(sess: Session?, refTaskTag: nat)
      ensures this.sess == sess && this.refTaskTag == refTaskTag
      ensures !tmrCdb && taskCmd == null && fabricTmrPtr == 0 && tmrFunction == 0 && response == None
    {
      this.sess := sess;
      tmrCdb := false;
      taskCmd := null;
      fabricTmrPtr := 0;
      tmrFunction := 0;
      this.refTaskTag := refTaskTag;
      response := None;
    }

    /**
     * core_tmr_req_init: the command is marked a TMR CDB, and its request
     * points back at it and records the fabric's request and the function.
     */
    method ReqInit(fabricTmrPtr: nat, tmrFunction: byte)
      modifies this
      ensures tmrCdb && taskCmd == this
      ensures this.fabricTmrPtr == fabricTmrPtr && this.tmrFunction == tmrFunction
      ensures refTaskTag == old(refTaskTag) && response == old(response)
    {
      tmrCdb := true;
      taskCmd := this;
      this.fabricTmrPtr := fabricTmrPtr;
      this.tmrFunction := tmrFunction;
    }
  }

  /**
   * The initiator a LUN RESET comes from: the node ACL of the session of
   * the request's command, when there is a request, it has a command and
   * that command a session.
   */
  function ResetInitiator(tmr: TmrCmd?): (nacl: Option<nat>)
    reads tmr
    ensures nacl.Some? ==> tmr != null && tmr.taskCmd != null && tmr.taskCmd.sess != null
  {
    if tmr != null && tmr.taskCmd != null && tmr.taskCmd.sess != null then tmr.taskCmd.sess.nodeAcl
    else None
  }

  /** struct se_device: its command queue (dev_queue_obj), the SPC-2 reservation and the statistics. */
  class Device {
    const id: nat
    const emulateTas: bool
    const hasLunReset: bool   // the backend provides do_lun_reset
    var queue: seq<Cmd>
    var queueCnt: int
    var spc2Reservations: bool  // DF_SPC2_RESERVATIONS
    var reservedNacl: Option<nat>
    var numResets: nat

    constructor(id: nat, emulateTas: bool, hasLunReset: bool, queue: seq<Cmd>)
      ensures this.id == id && this.emulateTas == emulateTas && this.hasLunReset == hasLunReset
      ensures this.queue == queue && queueCnt == |queue|
      ensures !spc2Reservations && reservedNacl == None && numResets == 0
    {
      this.id := id;
      this.emulateTas := emulateTas;
      this.hasLunReset := hasLunReset;
      this.queue := queue;
      queueCnt := |queue|;
      spc2Reservations := false;
      reservedNacl := None;
      numResets := 0;
    }
  }

  // ---------------------------------------------------------------
  // ABORT TASK (core_tmr_abort_task)
  // ---------------------------------------------------------------

  /** A command of device `dev` whose task tag is `tag`. */
  predicate Refers(c: Cmd, dev: nat, tag: nat)
  {
    c.dev == dev && c.tag == tag
  }

  /** The first command of `l` from index `i` on that the request refers to. */
  function FindTask(l: seq<Cmd>, dev: nat, tag: nat, i: nat): (k: Option<nat>)
    requires i <= |l|
    ensures k.Some? ==> i <= k.value < |l| && Refers(l[k.value], dev, tag)
                        && forall j :: i <= j < k.value ==> !Refers(l[j], dev, tag)
    ensures k.None? ==> forall j :: i <= j < |l| ==> !Refers(l[j], dev, tag)
    decreases |l| - i
  {
    if i == |l| then None
    else if Refers(l[i], dev, tag) then Some(i)
    else FindTask(l, dev, tag, i + 1)
  }

  /**
   * What ABORT TASK does to the live command it found: a reference is
   * taken, its work is cancelled and awaited, TASK ABORTED status is sent
   * with CMD_T_ABORTED set, and the acknowledgement reference (if held)
   * and the session's reference are dropped.
   */
  function AbortCalls(c: Cmd): seq<Call>
  {
    [GetRef(c.id), CancelAndWait(c.id), SendTaskAbort(c.(aborted := true))]
    + (if c.ackKref then [PutSessCmd(c.id)] else [])
    + [PutSessCmd(c.id)]
  }

  /**
   * core_tmr_abort_task: looks through the session's commands for the
   * first of device `dev` carrying the referenced tag. When there is none,
   * or it has already completed, the response is TASK DOES NOT EXIST and
   * nothing changes. Otherwise that command is taken off the session list
   * and aborted, and the response is FUNCTION COMPLETE.
   */
  method AbortTask(dev: Device, tmr: TmrCmd, sess: Session) returns (calls: seq<Call>)
    modifies sess`cmdList, tmr`response
    ensures var l := old(sess.cmdList);
      var k := FindTask(l, dev.id, tmr.refTaskTag, 0);
      if k.None? || l[k.value].complete then
        tmr.response == Some(TaskDoesNotExist) && sess.cmdList == l && calls == []
      else
        tmr.response == Some(FunctionComplete)
        && sess.cmdList == l[..k.value] + l[k.value + 1..]
        && calls == AbortCalls(l[k.value])
  {
    ghost var l := sess.cmdList;
    var i := 0;
    while i < |sess.cmdList|
      invariant 0 <= i <= |sess.cmdList| && sess.cmdList == l
      invariant FindTask(l, dev.id, tmr.refTaskTag, 0) == FindTask(l, dev.id, tmr.refTaskTag, i)
    {
      var c := sess.cmdList[i];
      if c.dev == dev.id && c.tag == tmr.refTaskTag {
        if c.complete {
          break;
        }
        c := c.(aborted := true);
        sess.cmdList := sess.cmdList[..i] + sess.cmdList[i + 1..];
        calls := [GetRef(c.id), CancelAndWait(c.id), SendTaskAbort(c)];
        if c.ackKref {
          calls := calls + [PutSessCmd(c.id)];
        }
        calls := calls + [PutSessCmd(c.id)];
        tmr.response := Some(FunctionComplete);
        return;
      }
      i := i + 1;
    }
    tmr.response := Some(TaskDoesNotExist);
    calls := [];
  }

  /**
   * A successful ABORT TASK removed exactly one command from the session,
   * the one referred to, leaving the others in order.
   */
  lemma AbortTaskRemovesOne(l: seq<Cmd>, k: nat)
    requires k < |l|
    ensures multiset(l[..k] + l[k + 1..]) + multiset{l[k]} == multiset(l)
    ensures |l[..k] + l[k + 1..]| == |l| - 1
  {
    assert l == l[..k] + [l[k]] + l[k + 1..];
  }

  // ---------------------------------------------------------------
  // LUN RESET: draining the device queue (core_tmr_drain_cmd_list)
  // ---------------------------------------------------------------

  /** The drain takes a queued command: it passes the preempt filter and is not the PROUT command. */
  predicate Drains(c: Cmd, preempt: Option<seq<u64>>, prout: Option<nat>)
  {
    !PreemptSkips(preempt, c.prResKey) && prout != Some(c.id)
  }

  /** A drained command: CMD_T_ABORTED set and CMD_T_QUEUED cleared. */
  function Mark(c: Cmd): (m: Cmd)
    ensures m.aborted && !m.queued && m.id == c.id
  {
    c.(aborted := true, queued := false)
  }

  /** The commands the drain leaves queued, in order. */
  function Kept(q: seq<Cmd>, preempt: Option<seq<u64>>, prout: Option<nat>): seq<Cmd>
  {
    if q == [] then []
    else Kept(q[..|q| - 1], preempt, prout)
         + (if Drains(q[|q| - 1], preempt, prout) then [] else [q[|q| - 1]])
  }

  /** The commands the drain moves to its drain list, marked, in order. */
  function Drained(q: seq<Cmd>, preempt: Option<seq<u64>>, prout: Option<nat>): seq<Cmd>
  {
    if q == [] then []
    else Drained(q[..|q| - 1], preempt, prout)
         + (if Drains(q[|q| - 1], preempt, prout) then [Mark(q[|q| - 1])] else [])
  }

  /** How a drained command is resolved: a TMR is finished as an abort, others by the TAS policy. */
  function Resolve(c: Cmd, tmrNacl: Option<nat>, tas: bool): seq<Call>
  {
    if c.tmrCdb then [FinishAbort(c.id, true)] else TasAbort(tmrNacl, c, tas, c.feCount)
  }

  /** The drain list resolved front to back. */
  function ResolveAll(d: seq<Cmd>, tmrNacl: Option<nat>, tas: bool): seq<Call>
  {
    if d == [] then [] else Resolve(d[0], tmrNacl, tas) + ResolveAll(d[1..], tmrNacl, tas)
  }

  /** The ids of a list of commands, in order. */
  function Ids(d: seq<Cmd>): (r: seq<nat>)
    ensures |r| == |d|
  {
    if d == [] then [] else [d[0].id] + Ids(d[1..])
  }

  /**
   * core_tmr_drain_cmd_list: every queued command the drain takes is
   * marked aborted and no longer queued, counted off queue_cnt and moved to
   * the drain list; then each is resolved in turn.
   */
  method DrainCmdList(dev: Device, prout: Option<nat>, tmrNacl: Option<nat>, tas: bool,
                      preempt: Option<seq<u64>>) returns (calls: seq<Call>)
    modifies dev`queue, dev`queueCnt
    ensures dev.queue == Kept(old(dev.queue), preempt, prout)
    ensures dev.queueCnt == old(dev.queueCnt) - |Drained(old(dev.queue), preempt, prout)|
    ensures calls == ResolveAll(Drained(old(dev.queue), preempt, prout), tmrNacl, tas)
  {
    var drain := MoveToDrainList(dev, prout, preempt);
    calls := ResolveDrainList(drain, tmrNacl, tas);
  }

  /** The scan of the queue under cmd_queue_lock. */
  method MoveToDrainList(dev: Device, prout: Option<nat>, preempt: Option<seq<u64>>)
    returns (drain: seq<Cmd>)
    modifies dev`queue, dev`queueCnt
    ensures dev.queue == Kept(old(dev.queue), preempt, prout)
    ensures drain == Drained(old(dev.queue), preempt, prout)
    ensures dev.queueCnt == old(dev.queueCnt) - |drain|
  {
    var q := dev.queue;
    var i := 0;
    var keep: seq<Cmd> := [];
    drain := [];
    while i < |q|
      invariant 0 <= i <= |q|
      invariant ScanState(q, i, keep, drain, dev.queue, preempt, prout)
      invariant dev.queueCnt == old(dev.queueCnt) - |drain|
    {
      keep, drain := ScanStep(dev, q, i, keep, drain, preempt, prout);
      i := i + 1;
    }
    assert q[..i] == q;
    assert dev.queue == keep + [];
  }

  /** Where the scan stands after `i` commands of the queue `q` it started from. */
  ghost predicate ScanState(q: seq<Cmd>, i: nat, keep: seq<Cmd>, drain: seq<Cmd>, queue: seq<Cmd>,
                            preempt: Option<seq<u64>>, prout: Option<nat>)
    requires i <= |q|
  {
    keep == Kept(q[..i], preempt, prout) && drain == Drained(q[..i], preempt, prout)
    && queue == keep + q[i..]
  }

  /** One turn of the scan: command `i` is left queued or moved to the tail of the drain list. */
  method ScanStep(dev: Device, q: seq<Cmd>, i: nat, keep: seq<Cmd>, drain: seq<Cmd>,
                  preempt: Option<seq<u64>>, prout: Option<nat>) returns (keep': seq<Cmd>, drain': seq<Cmd>)
    requires i < |q| && ScanState(q, i, keep, drain, dev.queue, preempt, prout)
    modifies dev`queue, dev`queueCnt
    ensures ScanState(q, i + 1, keep', drain', dev.queue, preempt, prout)
    ensures dev.queueCnt == old(dev.queueCnt) - (|drain'| - |drain|)
  {
    DrainStep(q, i, preempt, prout);
    var c := q[i];
    assert q[i..] == [c] + q[i + 1..];
    if !PreemptSkips(preempt, c.prResKey) && prout != Some(c.id) {
      c := c.(aborted := true, queued := false);
      dev.queueCnt := dev.queueCnt - 1;
      dev.queue := keep + q[i + 1..];
      keep', drain' := keep, drain + [c];
    } else {
      keep', drain' := keep + [c], drain;
    }
  }

  /** The drain list taken front to back, each command resolved with the queue unlocked. */
  method ResolveDrainList(drain0: seq<Cmd>, tmrNacl: Option<nat>, tas: bool) returns (calls: seq<Call>)
    ensures calls == ResolveAll(drain0, tmrNacl, tas)
  {
    var drain := drain0;
    calls := [];
    while drain != []
      invariant calls + ResolveAll(drain, tmrNacl, tas) == ResolveAll(drain0, tmrNacl, tas)
      decreases |drain|
    {
      var c := drain[0];
      ghost var before := calls;
      assert ResolveAll(drain, tmrNacl, tas) == Resolve(c, tmrNacl, tas) + ResolveAll(drain[1..], tmrNacl, tas);
      drain := drain[1..];
      if c.tmrCdb {
        calls := calls + [FinishAbort(c.id, true)];
      } else {
        calls := calls + TasAbort(tmrNacl, c, tas, c.feCount);
      }
      assert calls == before + Resolve(c, tmrNacl, tas);
      AppendAssoc(before, Resolve(c, tmrNacl, tas), ResolveAll(drain, tmrNacl, tas));
    }
    assert calls + [] == calls;
  }

  lemma AppendAssoc<T>(a: seq<T>, b: seq<T>, c: seq<T>)
    ensures a + (b + c) == (a + b) + c
  {
  }

  /** The scan extended by one command. */
  lemma DrainStep(q: seq<Cmd>, i: nat, preempt: Option<seq<u64>>, prout: Option<nat>)
    requires i < |q|
    ensures Drains(q[i], preempt, prout) ==>
      Kept(q[..i + 1], preempt, prout) == Kept(q[..i], preempt, prout)
      && Drained(q[..i + 1], preempt, prout) == Drained(q[..i], preempt, prout) + [Mark(q[i])]
    ensures !Drains(q[i], preempt, prout) ==>
      Kept(q[..i + 1], preempt, prout) == Kept(q[..i], preempt, prout) + [q[i]]
      && Drained(q[..i + 1], preempt, prout) == Drained(q[..i], preempt, prout)
  {
    assert q[..i + 1][..i] == q[..i];
    if Drains(q[i], preempt, prout) {
      assert Kept(q[..i], preempt, prout) + [] == Kept(q[..i], preempt, prout);
    } else {
      assert Drained(q[..i], preempt, prout) + [] == Drained(q[..i], preempt, prout);
    }
  }

  /** The drain keeps or takes every command: none is lost or made up. */
  lemma {:induction false} DrainPartition(q: seq<Cmd>, preempt: Option<seq<u64>>, prout: Option<nat>)
    ensures |Kept(q, preempt, prout)| + |Drained(q, preempt, prout)| == |q|
    ensures multiset(Kept(q, preempt, prout)) + multiset(Taken(q, preempt, prout)) == multiset(q)
  {
    if q != [] {
      DrainPartition(q[..|q| - 1], preempt, prout);
      MultisetSnoc(q);
    }
  }

  lemma MultisetSnoc(q: seq<Cmd>)
    requires q != []
    ensures multiset(q) == multiset(q[..|q| - 1]) + multiset{q[|q| - 1]}
  {
    assert q == q[..|q| - 1] + [q[|q| - 1]];
  }

  /** The commands left queued are those the drain does not take. */
  lemma {:induction false} KeptNotDrained(q: seq<Cmd>, preempt: Option<seq<u64>>, prout: Option<nat>)
    ensures forall c :: c in Kept(q, preempt, prout) ==> c in q && !Drains(c, preempt, prout)
  {
    if q != [] {
      KeptNotDrained(q[..|q| - 1], preempt, prout);
    }
  }

  /** The drained commands are the ones taken, in order, each now aborted and no longer queued. */
  lemma {:induction false} DrainedAreTaken(q: seq<Cmd>, preempt: Option<seq<u64>>, prout: Option<nat>)
    ensures Ids(Drained(q, preempt, prout)) == Ids(Taken(q, preempt, prout))
    ensures forall c :: c in Drained(q, preempt, prout) ==> c.aborted && !c.queued
  {
    if q != [] {
      var front := q[..|q| - 1];
      var c := q[|q| - 1];
      DrainedAreTaken(front, preempt, prout);
      if Drains(c, preempt, prout) {
        IdsAppend(Drained(front, preempt, prout), [Mark(c)]);
        IdsAppend(Taken(front, preempt, prout), [c]);
      } else {
        assert Drained(q, preempt, prout) == Drained(front, preempt, prout);
        assert Taken(q, preempt, prout) == Taken(front, preempt, prout);
      }
    }
  }

  /** The queued commands the drain takes, as they were before it marked them. */
  function Taken(q: seq<Cmd>, preempt: Option<seq<u64>>, prout: Option<nat>): (t: seq<Cmd>)
    ensures forall c :: c in t ==> c in q && Drains(c, preempt, prout)
  {
    if q == [] then []
    else Taken(q[..|q| - 1], preempt, prout)
         + (if Drains(q[|q| - 1], preempt, prout) then [q[|q| - 1]] else [])
  }

  lemma {:induction false} IdsAppend(a: seq<Cmd>, b: seq<Cmd>)
    ensures Ids(a + b) == Ids(a) + Ids(b)
  {
    if a != [] {
      assert (a + b)[1..] == a[1..] + b;
      IdsAppend(a[1..], b);
    } else {
      assert a + b == b;
    }
  }

  lemma {:induction false} FinishedAppend(a: seq<Call>, b: seq<Call>)
    ensures Finished(a + b) == Finished(a) + Finished(b)
  {
    if a != [] {
      assert (a + b)[1..] == a[1..] + b;
      FinishedAppend(a[1..], b);
    } else {
      assert a + b == b;
    }
  }

  /**
   * Each drained command is resolved exactly once, in drain order: the
   * commands finished as aborts are the drain list, one each.
   */
  lemma {:induction false} ResolvedOnceEach(d: seq<Cmd>, tmrNacl: Option<nat>, tas: bool)
    ensures Finished(ResolveAll(d, tmrNacl, tas)) == Ids(d)
  {
    if d != [] {
      var c := d[0];
      ResolvedOnceEach(d[1..], tmrNacl, tas);
      FinishedAppend(Resolve(c, tmrNacl, tas), ResolveAll(d[1..], tmrNacl, tas));
      if !c.tmrCdb {
        TasPolicy(tmrNacl, c, tas, c.feCount);
      }
    }
  }

  // ---------------------------------------------------------------
  // LUN RESET (core_tmr_lun_reset)
  // ---------------------------------------------------------------

  /**
   * The calls of a LUN RESET: the backend's reset when PR offload is on
   * and the backend has one, the drain, and the wait for the backend's
   * reset when it was started successfully.
   */
  function ResetCalls(hardware: bool, resetRc: int, drained: seq<Call>): (calls: seq<Call>)
    ensures |calls| == |drained| + (if hardware then 1 else 0) + (if hardware && resetRc == 0 then 1 else 0)
    ensures !hardware ==> calls == drained
    ensures hardware ==> calls[0] == LunResetCall && calls[1..|drained| + 1] == drained
    ensures |calls| > |drained| + 1 ==> calls[|calls| - 1] == WaitForReset
  {
    (if hardware then [LunResetCall] else []) + drained
    + (if hardware && resetRc == 0 then [WaitForReset] else [])
  }

  /**
   * core_tmr_lun_reset: `offloadPr` is target_core_offload_pr and
   * `resetRc` what do_lun_reset returns. The queue is drained under the
   * device's TAS setting for the requesting initiator; a full reset (no
   * preempt list) releases an SPC-2 reservation; the reset is counted and
   * 0 returned.
   */
  method LunReset(dev: Device, tmr: TmrCmd?, preempt: Option<seq<u64>>, prout: Option<nat>,
                  offloadPr: bool, resetRc: int) returns (rc: int, calls: seq<Call>)
    modifies dev
    ensures rc == 0
    ensures dev.numResets == old(dev.numResets) + 1
    ensures dev.queue == Kept(old(dev.queue), preempt, prout)
    ensures dev.queueCnt == old(dev.queueCnt) - |Drained(old(dev.queue), preempt, prout)|
    ensures preempt.None? && old(dev.spc2Reservations) ==> !dev.spc2Reservations && dev.reservedNacl == None
    ensures !(preempt.None? && old(dev.spc2Reservations)) ==>
      dev.spc2Reservations == old(dev.spc2Reservations) && dev.reservedNacl == old(dev.reservedNacl)
    ensures calls == ResetCalls(offloadPr && dev.hasLunReset, resetRc,
                                ResolveAll(Drained(old(dev.queue), preempt, prout), ResetInitiator(tmr), dev.emulateTas))
  {
    var tas := dev.emulateTas;
    var tmrNacl := ResetInitiator(tmr);
    var waitForTransport := false;
    calls := [];
    if offloadPr && dev.hasLunReset {
      calls := [LunResetCall];
      if resetRc == 0 {
        waitForTransport := true;
      }
    }
    var drained := DrainCmdList(dev, prout, tmrNacl, tas, preempt);
    calls := calls + drained;
    if preempt.None? && dev.spc2Reservations {
      dev.reservedNacl := None;
      dev.spc2Reservations := false;
    }
    if waitForTransport {
      calls := calls + [WaitForReset];
    } else {
      assert calls == calls + [];
    }
    dev.numResets := dev.numResets + 1;
    rc := 0;
  }

  /**
   * A LUN RESET keeps queue_cnt counting the queue: if it did before, it
   * does after.
   */
  lemma ResetKeepsQueueCount(q: seq<Cmd>, cnt: int, preempt: Option<seq<u64>>, prout: Option<nat>)
    requires cnt == |q|
    ensures cnt - |Drained(q, preempt, prout)| == |Kept(q, preempt, prout)|
  {
    DrainPartition(q, preempt, prout);
  }
}
