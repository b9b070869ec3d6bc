/**
 * The UDP client as the source writes it: globals updated in place by `process_received_udp_message`
 * and by the retry loop of `send_network_msg_udp`. The listener runs between commands (`HearAll`) and, inside a
 * send, before each attempt, during each pause and before the last scan. Every such execution is shown to be a
 * sequence of steps of the machine in UdpClient, whose runs interleave the two threads freely.
 */
module UdpProcess {
  import opened Base
  import opened ConfirmedIds
  import opened SeenIds
  import opened Commands
  import opened UdpCodec
  import opened UdpClient
  import UdpHistory

  /** The client after a list of steps; `None` if one of them was not possible. */
  function Perform(cfg: Config, c: Client, acts: seq<Action>): Option<Client> {
    if acts == [] then Some(c)
    else
      match Perform(cfg, c, acts[..|acts| - 1])
      case Some(c') => if Enabled(c', acts[|acts| - 1]) then Some(Step(cfg, c', acts[|acts| - 1])) else None
      case None => None
  }

  lemma PerformOne(cfg: Config, c: Client, acts: seq<Action>, c': Client, a: Action)
    requires Perform(cfg, c, acts) == Some(c') && Enabled(c', a)
    ensures Perform(cfg, c, acts + [a]) == Some(Step(cfg, c', a))
  {
    assert (acts + [a])[..|acts|] == acts;
  }

  lemma {:induction false} PerformAppend(cfg: Config, c: Client, acts: seq<Action>, c': Client, more: seq<Action>)
    requires Perform(cfg, c, acts) == Some(c')
    ensures Perform(cfg, c, acts + more) == Perform(cfg, c', more)
  {
    if more == [] {
      assert acts + more == acts;
    } else {
      var front := more[..|more| - 1];
      assert (acts + more)[..|acts + more| - 1] == acts + front;
      PerformAppend(cfg, c, acts, c', front);
    }
  }

  /** Confirmations, displays, retries and gates are in order after any steps; no honesty of the peer is needed. */
  lemma {:induction false} PerformKeepsLog(cfg: Config, c: Client, acts: seq<Action>, c': Client)
    requires UdpHistory.LogInv(cfg, c) && Perform(cfg, c, acts) == Some(c')
    ensures UdpHistory.LogInv(cfg, c')
  {
    if acts != [] {
      var front, a := acts[..|acts| - 1], acts[|acts| - 1];
      var v := Perform(cfg, c, front).value;
      PerformKeepsLog(cfg, c, front, v);
      UdpHistory.StepKeepsLogInv(cfg, v, a);
    }
  }

  /** The peer's datagrams, as far as the client with this table may rely on them. */
  ghost predicate AllHonest(t: Table, ds: seq<Bytes>) {
    forall i :: 0 <= i < |ds| ==> WellFormed(ds[i]) && (ds[i][0] == CONFIRM ==> Issued(t, MsgId(ds[i])))
  }

  lemma HonestStep(cfg: Config, c: Client, c0: Client, acts: seq<Action>, d: Bytes)
    requires SendInv(cfg, c) && c.fate == Running && WellFormed(d) && (d[0] == CONFIRM ==> Issued(c.table, MsgId(d)))
    requires Perform(cfg, c0, acts) == Some(c)
    ensures SendInv(cfg, OnHear(c, d)) && OnHear(c, d).phase == c.phase
    ensures OnHear(c, d).table.index == c.table.index
    ensures d[0] == CONFIRM ==> Record(c.table, MsgId(d)).Some?
    ensures Perform(cfg, c0, acts + [Hear(d)]) == Some(OnHear(c, d))
  {
    StepKeepsSendInv(cfg, c, Hear(d));
    PerformOne(cfg, c0, acts, c, Hear(d));
    TableOfReact(c, d);
    if d[0] == CONFIRM {
      RecordKeepsShape(c.table, MsgId(d));
    }
  }

  /** The globals after an effect on them. */
  function Change(c: Client, e: Effect): Client {
    c.(state := e.state, table := e.table, seen := e.seen, fate := e.fate, log := c.log + e.events)
  }

  lemma DispatchIgnoresLog(c: Client, log: seq<Event>, id: Id, m: Option<Message>)
    ensures ReactTo(c.(log := log), id, m) == ReactTo(c, id, m)
  {
  }

  lemma ReactIgnoresLog(c: Client, log: seq<Event>, d: Bytes)
    ensures React(c.(log := log), d) == React(c, d)
  {
    if WellFormed(d) {
      DispatchIgnoresLog(c, log, MsgId(d), Decode(d));
    }
  }

  lemma ApplyIsChange(c: Client, d: Bytes, e: Effect)
    ensures Apply(c, d, e) == Change(c.(log := c.log + [Heard(c.state, d)]), e)
  {
  }

  /** Hearing a datagram is logging it and then reacting to it. */
  lemma HearIsChange(c: Client, d: Bytes)
    ensures var c' := c.(log := c.log + [Heard(c.state, d)]); OnHear(c, d) == Change(c', React(c', d))
  {
    ReactIgnoresLog(c, c.log + [Heard(c.state, d)], d);
    ApplyIsChange(c, d, React(c, d));
  }

  /**
   * What the world does during one turn of the retry loop: what arrives before `sendto`, whether it works, and what
   * arrives during the pause.
   */
  datatype Turn = Turn(before: seq<Bytes>, sent: bool, heard: seq<Bytes>)

  ghost predicate TurnsHonest(t: Table, turns: seq<Turn>) {
    forall i :: 0 <= i < |turns| ==> AllHonest(t, turns[i].before) && AllHonest(t, turns[i].heard)
  }

  /** The step of an attempt inside the loop, written out. */
  lemma AttemptStep(cfg: Config, c: Client, sent: bool, c0: Client, acts: seq<Action>) returns (c': Client)
    requires SendInv(cfg, c) && c.fate == Running && Perform(cfg, c0, acts) == Some(c)
    requires c.phase.Sending? && c.phase.stage == LoopHead && c.phase.tries <= cfg.retransmissions
    ensures SendInv(cfg, c') && Perform(cfg, c0, acts + [Attempt(sent)]) == Some(c')
    ensures c'.phase == Sending(if sent then Asleep else LoopHead, c.phase.msg, c.phase.tries + 1, c.phase.bye)
    ensures c'.log == c.log + [if sent then Transmitted(c.phase.msg) else Failed(c.phase.msg)]
    ensures c' == c.(phase := c'.phase, log := c'.log)
  {
    StepKeepsSendInv(cfg, c, Attempt(sent));
    PerformOne(cfg, c0, acts, c, Attempt(sent));
    c' := Step(cfg, c, Attempt(sent));
  }

  class Process {
    const cfg: Config
    const session: Session
    const ids: ConfirmTable
    const seen: SeenTable
    var fate: Fate
    var log: seq<Event>
    /** Where the main thread stands; the program counter of the source. */
    ghost var phase: Phase

    ghost predicate Valid()
      reads this, session, ids, ids.slots, seen, seen.ids
    {
      !session.tcp && seen.Valid() && ids.slots != seen.ids
    }

    ghost function View(): Client
      reads this, session, ids, ids.slots, seen, seen.ids
      requires Valid()
    {
      Client(session.state, session.name, ids.View(), seen.View(), phase, fate, log)
    }

    constructor (cfg: Config)
      ensures Valid() && this.cfg == cfg && View() == InitialClient()
      ensures fresh(session) && fresh(ids) && fresh(ids.slots) && fresh(seen) && fresh(seen.ids)
    {
      this.cfg := cfg;
      session := new Session(false, DEFAULT_NAME);
      ids := new ConfirmTable();
      seen := new SeenTable();
      fate, log, phase := Running, [], Idle;
    }

    method SendConfirm(id: Id)
      modifies this`log
      ensures log == old(log) + [ConfirmSent(id)]
    {
      var buffer := SerializeConfirm(id);
      log := log + [ConfirmSent(FromShort(buffer[1], buffer[2]))];
    }

    /** The CONFIRM branch. */
    method HandleConfirm(id: Id)
      requires Valid() && Record(ids.View(), id).Some?
      modifies ids, ids.slots
      ensures Valid() && (ids.slots == old(ids.slots) || fresh(ids.slots))
      ensures View() == Change(old(View()), OnConfirm(old(View()), id))
    {
      ids.Add(id);
    }

    /** handle_reply_msg_state_auth, _open and _join. */
    method HandleReply(m: Message)
      requires Valid() && m.ReplyMsg?
      modifies this`log, this`fate, session`state
      ensures Valid()
      ensures View() == Change(old(View()), OnReply(old(View()), m))
    {
      if session.state == Start || m.result > 1 {
        fate := Exited(EXIT_FAILURE);
        return;
      }
      log := log + [Outcome(m.result == 1, m.content)];
      if session.state == Open {
        fate := Exited(EXIT_SUCCESS);
        return;
      }
      if session.state == Join || m.result == 1 {
        session.state := Open;
      }
      SendConfirm(m.id);
    }

    /** The MSG branch, and the ERR branch up to its exit. */
    method HandleText(id: Id, name: CString, content: CString)
      requires Valid()
      modifies this`log, seen, seen.ids
      ensures Valid() && (seen.ids == old(seen.ids) || fresh(seen.ids))
      ensures View() == Change(old(View()), OnText(old(View()), id, name, content))
    {
      var duplicate := seen.IsDuplicate(id);
      if !duplicate {
        log := log + [Shown(id, name, content)];
      }
      SendConfirm(id);
    }

    /** `process_received_udp_message` on a receive buffer terminated at `length`. */
    method ProcessDatagram(buffer: array<byte>, length: nat)
      requires Valid() && length < buffer.Length && buffer[length] == 0
      requires WellFormed(buffer[..length])
      requires buffer[0] == CONFIRM ==> Record(ids.View(), MsgId(buffer[..length])).Some?
      modifies this`log, this`fate, session`state, ids, ids.slots, seen, seen.ids
      ensures Valid() && View() == OnHear(old(View()), old(buffer[..length])) && ArraysMoved()
    {
      HearIsChange(View(), buffer[..length]);
      log := log + [Heard(session.state, buffer[..length])];
      ProcessBody(buffer, length);
    }

    /** The `switch` on the type. */
    method ProcessBody(buffer: array<byte>, length: nat)
      requires Valid() && length < buffer.Length && buffer[length] == 0
      requires WellFormed(buffer[..length])
      requires buffer[0] == CONFIRM ==> Record(ids.View(), MsgId(buffer[..length])).Some?
      modifies this`log, this`fate, session`state, ids, ids.slots, seen, seen.ids
      ensures Valid() && ArraysMoved()
      ensures View() == Change(old(View()), React(old(View()), old(buffer[..length])))
    {
      if buffer[0] == CONFIRM {
        ProcessConfirm(buffer, length);
      } else if buffer[0] == REPLY {
        ProcessReply(buffer, length);
      } else if buffer[0] in {MSG, ERR} {
        ProcessText(buffer, length);
      } else {
        ProcessHeaderOnly(buffer, length);
      }
    }

    method ProcessConfirm(buffer: array<byte>, length: nat)
      requires Valid() && length < buffer.Length && buffer[length] == 0
      requires WellFormed(buffer[..length]) && buffer[0] == CONFIRM
      requires Record(ids.View(), MsgId(buffer[..length])).Some?
      modifies ids, ids.slots
      ensures Valid() && (ids.slots == old(ids.slots) || fresh(ids.slots))
      ensures View() == Change(old(View()), React(old(View()), old(buffer[..length])))
    {
      var m := DeserializeConfirm(buffer, length);
      HandleConfirm(m.value.id);
    }

    method ProcessReply(buffer: array<byte>, length: nat)
      requires Valid() && length < buffer.Length && buffer[length] == 0
      requires WellFormed(buffer[..length]) && buffer[0] == REPLY
      modifies this`log, this`fate, session`state
      ensures Valid()
      ensures View() == Change(old(View()), React(old(View()), old(buffer[..length])))
    {
      WellFormedDecodes(buffer[..length]);
      var m := DeserializeReply(buffer, length);
      HandleReply(m.value);
    }

    /** MSG, refused in START, and ERR with the exit behind it. */
    method ProcessText(buffer: array<byte>, length: nat)
      requires Valid() && length < buffer.Length && buffer[length] == 0
      requires WellFormed(buffer[..length]) && buffer[0] in {MSG, ERR}
      modifies this`log, this`fate, seen, seen.ids
      ensures Valid() && (seen.ids == old(seen.ids) || fresh(seen.ids))
      ensures View() == Change(old(View()), React(old(View()), old(buffer[..length])))
    {
      WellFormedDecodes(buffer[..length]);
      if buffer[0] == MSG {
        if session.state != Start {
          var m := DeserializeMsg(buffer, length);
          HandleText(m.value.id, m.value.name, m.value.content);
        }
      } else {
        var m := DeserializeErr(buffer, length);
        HandleText(m.value.id, m.value.name, m.value.content);
        fate := Exited(EXIT_SUCCESS);
      }
    }

    /** PING, BYE and unknown types: a CONFIRM, then possibly the end. */
    method ProcessHeaderOnly(buffer: array<byte>, length: nat)
      requires Valid() && length < buffer.Length && buffer[length] == 0
      requires WellFormed(buffer[..length]) && buffer[0] !in {CONFIRM, REPLY, MSG, ERR}
      modifies this`log, this`fate
      ensures Valid()
      ensures View() == Change(old(View()), React(old(View()), old(buffer[..length])))
    {
      ghost var d := buffer[..length];
      WellFormedDecodes(d);
      if buffer[0] == PING {
        var m := DeserializePing(buffer, length);
        SendConfirm(m.value.id);
      } else if buffer[0] == BYE {
        var m := DeserializeBye(buffer, length);
        SendConfirm(m.value.id);
        fate := Exited(EXIT_SUCCESS);
      } else {
        SendConfirm(FromShort(buffer[1], buffer[2]));
        fate := Exited(EXIT_FAILURE);
      }
    }

    // ----- the main thread, with the listener running while it sleeps -----

    /** The arrays are the old ones or were allocated since. */
    twostate predicate ArraysMoved()
      reads this, ids, seen
    {
      && (ids.slots == old(ids.slots) || fresh(ids.slots))
      && (seen.ids == old(seen.ids) || fresh(seen.ids))
    }

    /** One turn of the listener: `recvfrom`, the terminator, and the processing. */
    method Receive(d: Bytes)
      requires Valid() && WellFormed(d)
      requires d[0] == CONFIRM ==> Record(ids.View(), MsgId(d)).Some?
      modifies this`log, this`fate, session`state, ids, ids.slots, seen, seen.ids
      ensures Valid() && ArraysMoved()
      ensures View() == OnHear(old(View()), d)
    {
      var buffer := new byte[|d| + 1](i requires 0 <= i <= |d| => if i < |d| then d[i] else 0);
      assert buffer[..|d|] == d;
      ProcessDatagram(buffer, |d|);
    }

    /** The listener works through what arrives, until it ends the process. */
    method HearAll(ds: seq<Bytes>) returns (ghost acts: seq<Action>)
      requires Valid() && SendInv(cfg, View()) && fate == Running && AllHonest(ids.View(), ds)
      modifies this`log, this`fate, session`state, ids, ids.slots, seen, seen.ids
      ensures Valid() && ArraysMoved() && SendInv(cfg, View())
      ensures Perform(cfg, old(View()), acts) == Some(View())
      ensures phase == old(phase) && ids.View().index == old(ids.View().index)
      ensures forall a :: a in acts ==> a.Hear?
    {
      acts := [];
      for i := 0 to |ds|
        invariant Valid() && ArraysMoved() && SendInv(cfg, View()) && fate == Running
        invariant Perform(cfg, old(View()), acts) == Some(View())
        invariant phase == old(phase) && ids.View().index == old(ids.View().index)
        invariant forall a :: a in acts ==> a.Hear?
      {
        ghost var c := View();
        HonestStep(cfg, c, old(View()), acts, ds[i]);
        Receive(ds[i]);
        acts := acts + [Hear(ds[i])];
        if fate != Running {
          return;
        }
      }
    }

    /** The scan of the confirmation array for the message in flight. */
    method IsConfirmed(msgId: Id) returns (confirmed: bool)
      requires Valid() && SendInv(cfg, View()) && phase.Sending? && msgId == MsgId(phase.msg)
      ensures Search(ids.View(), msgId) == if confirmed then Found else Absent
    {
      ScanMeansSettled(ids.View());
      confirmed := ids.Contains(msgId);
    }

    /** The last scan: return to the caller or leave the process. */
    method ReturnOrExit(msgId: Id, bye: bool)
      requires Valid() && SendInv(cfg, View()) && Enabled(View(), Decide)
      requires msgId == MsgId(phase.msg) && bye == phase.bye
      modifies this`fate, this`phase
      ensures Valid() && View() == OnDecide(old(View()))
      ensures if bye then fate != Running else fate != Running || phase.Idle?
    {
      var confirmed := IsConfirmed(msgId);
      if !confirmed {
        fate := Exited(EXIT_FAILURE);
        return;
      }
      phase := Idle;
      if bye {
        fate := Exited(EXIT_SUCCESS);
      }
    }

    /** What arrives between the last pause and the last scan, and that scan. */
    method Finish(msgId: Id, bye: bool, late: seq<Bytes>) returns (ghost acts: seq<Action>)
      requires Valid() && fate == Running && phase.Sending? && phase.stage == AfterLoop && SendInv(cfg, View())
      requires msgId == MsgId(phase.msg) && bye == phase.bye
      requires AllHonest(ids.View(), late)
      modifies this, session`state, ids, ids.slots, seen, seen.ids
      ensures Valid() && ArraysMoved() && SendInv(cfg, View())
      ensures Perform(cfg, old(View()), acts) == Some(View())
      ensures if bye then fate != Running else fate != Running || phase.Idle?
    {
      acts := HearAll(late);
      if fate == Running {
        StepKeepsSendInv(cfg, View(), Decide);
        PerformOne(cfg, old(View()), acts, View(), Decide);
        acts := acts + [Decide];
        ReturnOrExit(msgId, bye);
      }
    }

    /** One `sendto` that worked, and the beginning of the pause. */
    method SendCopy(msg: Bytes, tries: nat, bye: bool, ghost c0: Client, ghost acts: seq<Action>)
      requires Valid() && SendInv(cfg, View()) && fate == Running && Perform(cfg, c0, acts) == Some(View())
      requires 0 < tries <= cfg.retransmissions + 1 && phase == Sending(LoopHead, msg, tries - 1, bye)
      modifies this`log, this`phase
      ensures Valid() && SendInv(cfg, View()) && phase == Sending(Asleep, msg, tries, bye)
      ensures Perform(cfg, c0, acts + [Attempt(true)]) == Some(View())
    {
      ghost var next := AttemptStep(cfg, View(), true, c0, acts);
      log := log + [Transmitted(msg)];
      phase := Sending(Asleep, msg, tries, bye);
      assert View() == next;
    }

    /** The pause, during which the listener runs, and the scan at its end. */
    method SleepAndScan(msgId: Id, heard: seq<Bytes>, ghost c0: Client, ghost acts: seq<Action>)
      returns (confirmed: bool, ghost acts': seq<Action>)
      requires Valid() && fate == Running && SendInv(cfg, View()) && Perform(cfg, c0, acts) == Some(View())
      requires phase.Sending? && phase.stage == Asleep && msgId == MsgId(phase.msg) && AllHonest(ids.View(), heard)
      modifies this`log, this`fate, this`phase, session`state, ids, ids.slots, seen, seen.ids
      ensures Valid() && ArraysMoved() && SendInv(cfg, View()) && ids.index == old(ids.index)
      ensures Perform(cfg, c0, acts') == Some(View())
      ensures fate == Running ==> phase == old(phase).(stage := if confirmed then AfterLoop else LoopHead)
    {
      ghost var c := View();
      ghost var more := HearAll(heard);
      PerformAppend(cfg, c0, acts, c, more);
      acts' := acts + more;
      confirmed := false;
      if fate == Running {
        confirmed := WakeAndScan(msgId, c0, acts');
        acts' := acts' + [Wake];
      }
    }

    /** A `sendto` that failed: the try is spent. */
    method SkipCopy(msg: Bytes, tries: nat, bye: bool, ghost c0: Client, ghost acts: seq<Action>)
      requires Valid() && SendInv(cfg, View()) && fate == Running && Perform(cfg, c0, acts) == Some(View())
      requires 0 < tries <= cfg.retransmissions + 1 && phase == Sending(LoopHead, msg, tries - 1, bye)
      modifies this`log, this`phase
      ensures Valid() && SendInv(cfg, View()) && phase == Sending(LoopHead, msg, tries, bye)
      ensures Perform(cfg, c0, acts + [Attempt(false)]) == Some(View())
    {
      ghost var next := AttemptStep(cfg, View(), false, c0, acts);
      log := log + [Failed(msg)];
      phase := Sending(LoopHead, msg, tries, bye);
      assert View() == next;
    }

    /** One pass through the retry loop, with the listener running before the attempt as well. */
    method Pass(msg: Bytes, msgId: Id, tries: nat, bye: bool, turn: Turn, ghost c0: Client, ghost acts: seq<Action>)
      returns (confirmed: bool, ghost acts': seq<Action>)
      requires Valid() && fate == Running && SendInv(cfg, View()) && Perform(cfg, c0, acts) == Some(View())
      requires 0 < tries <= cfg.retransmissions + 1 && phase == Sending(LoopHead, msg, tries - 1, bye)
      requires |msg| >= 3 && msgId == MsgId(msg)
      requires AllHonest(ids.View(), turn.before) && AllHonest(ids.View(), turn.heard)
      modifies this, session`state, ids, ids.slots, seen, seen.ids
      ensures Valid() && ArraysMoved() && SendInv(cfg, View()) && ids.index == old(ids.index)
      ensures Perform(cfg, c0, acts') == Some(View())
      ensures fate == Running ==> phase == Sending(if confirmed then AfterLoop else LoopHead, msg, tries, bye)
    {
      ghost var c := View();
      ghost var more := HearAll(turn.before);
      PerformAppend(cfg, c0, acts, c, more);
      acts' := acts + more;
      confirmed := false;
      if fate == Running {
        confirmed, acts' := Try(msg, msgId, tries, bye, turn, c0, acts');
      }
    }

    /** The body of the retry loop, entered with `tries` already counted. */
    method Try(msg: Bytes, msgId: Id, tries: nat, bye: bool, turn: Turn, ghost c0: Client, ghost acts: seq<Action>)
      returns (confirmed: bool, ghost acts': seq<Action>)
      requires Valid() && fate == Running && SendInv(cfg, View()) && Perform(cfg, c0, acts) == Some(View())
      requires 0 < tries <= cfg.retransmissions + 1 && phase == Sending(LoopHead, msg, tries - 1, bye)
      requires |msg| >= 3 && msgId == MsgId(msg) && AllHonest(ids.View(), turn.heard)
      modifies this, session`state, ids, ids.slots, seen, seen.ids
      ensures Valid() && ArraysMoved() && SendInv(cfg, View()) && ids.index == old(ids.index)
      ensures Perform(cfg, c0, acts') == Some(View())
      ensures fate == Running ==> phase == Sending(if confirmed then AfterLoop else LoopHead, msg, tries, bye)
    {
      if turn.sent {
        SendCopy(msg, tries, bye, c0, acts);
        confirmed, acts' := SleepAndScan(msgId, turn.heard, c0, acts + [Attempt(true)]);
      } else {
        SkipCopy(msg, tries, bye, c0, acts);
        confirmed, acts' := false, acts + [Attempt(false)];
      }
    }

    /** The end of the pause and the scan inside the loop. */
    method WakeAndScan(msgId: Id, ghost c: Client, ghost acts: seq<Action>) returns (confirmed: bool)
      requires Valid() && fate == Running && SendInv(cfg, View())
      requires phase.Sending? && phase.stage == Asleep && msgId == MsgId(phase.msg)
      requires Perform(cfg, c, acts) == Some(View())
      modifies this`log, this`phase
      ensures Valid() && SendInv(cfg, View()) && Perform(cfg, c, acts + [Wake]) == Some(View())
      ensures phase == old(phase).(stage := if confirmed then AfterLoop else LoopHead)
    {
      ghost var c' := View();
      StepKeepsSendInv(cfg, c', Wake);
      PerformOne(cfg, c, acts, c', Wake);
      confirmed := IsConfirmed(msgId);
      log := log + [Slept(cfg.timeout / 1000, cfg.timeout % 1000 * 1000 * 1000)];
      phase := phase.(stage := if confirmed then AfterLoop else LoopHead);
    }

    /** The retry loop: left by `break` or by its condition, unless the listener ends the process. */
    method RetryLoop(msg: Bytes, msgId: Id, bye: bool, turns: seq<Turn>) returns (ghost acts: seq<Action>)
      requires Valid() && fate == Running && phase == Sending(LoopHead, msg, 0, bye) && SendInv(cfg, View())
      requires |msg| >= 3 && msgId == MsgId(msg) && |turns| > cfg.retransmissions && TurnsHonest(ids.View(), turns)
      modifies this, session`state, ids, ids.slots, seen, seen.ids
      ensures Valid() && ArraysMoved() && SendInv(cfg, View()) && ids.index == old(ids.index)
      ensures Perform(cfg, old(View()), acts) == Some(View())
      ensures fate == Running ==> LoopLeft(msg, bye)
    {
      ghost var c0 := View();
      acts := [];
      var totalTries := 0;
      while totalTries <= cfg.retransmissions
        invariant Valid() && ArraysMoved() && SendInv(cfg, View()) && fate == Running
        invariant Perform(cfg, c0, acts) == Some(View())
        invariant ids.index == old(ids.index)
        invariant totalTries <= cfg.retransmissions + 1
        invariant phase == Sending(LoopHead, msg, totalTries, bye)
      {
        totalTries := totalTries + 1;
        var confirmed;
        confirmed, acts := Pass(msg, msgId, totalTries, bye, turns[totalTries - 1], c0, acts);
        if fate != Running || confirmed {
          break;
        }
      }
    }

    ghost predicate LoopLeft(msg: Bytes, bye: bool)
      reads this
    {
      && phase.Sending? && phase.msg == msg && phase.bye == bye
      && (phase.stage == AfterLoop || (phase.stage == LoopHead && phase.tries > cfg.retransmissions))
    }

    /** `send_network_msg_udp` from the loop on; `turns` and `late` are what the world does meanwhile. */
    method Retry(msg: Bytes, bye: bool, turns: seq<Turn>, late: seq<Bytes>) returns (ghost acts: seq<Action>)
      requires Valid() && fate == Running && phase == Sending(LoopHead, msg, 0, bye) && SendInv(cfg, View())
      requires |turns| > cfg.retransmissions
      requires TurnsHonest(ids.View(), turns) && AllHonest(ids.View(), late)
      modifies this, session`state, ids, ids.slots, seen, seen.ids
      ensures Valid() && ArraysMoved() && SendInv(cfg, View())
      ensures Perform(cfg, old(View()), acts) == Some(View())
      ensures if bye then fate != Running else fate != Running || phase.Idle?
    {
      var msgId := FromShort(msg[1], msg[2]);
      acts := RetryLoop(msg, msgId, bye, turns);
      if fate == Running {
        acts := AfterRetries(msgId, bye, late, old(View()), acts);
      }
    }

    /** Behind the loop, left by `break` or by its condition. */
    method AfterRetries(msgId: Id, bye: bool, late: seq<Bytes>, ghost c0: Client, ghost acts: seq<Action>)
      returns (ghost acts': seq<Action>)
      requires Valid() && fate == Running && SendInv(cfg, View()) && Perform(cfg, c0, acts) == Some(View())
      requires phase.Sending? && LoopLeft(phase.msg, bye) && msgId == MsgId(phase.msg)
      requires AllHonest(ids.View(), late)
      modifies this, session`state, ids, ids.slots, seen, seen.ids
      ensures Valid() && ArraysMoved() && SendInv(cfg, View()) && Perform(cfg, c0, acts') == Some(View())
      ensures if bye then fate != Running else fate != Running || phase.Idle?
    {
      acts' := acts;
      if phase.stage == LoopHead {
        acts' := LeaveLoop(c0, acts);
      }
      ghost var c := View();
      ghost var more := Finish(msgId, bye, late);
      PerformAppend(cfg, c0, acts', c, more);
      acts' := acts' + more;
    }

    /** The loop condition turns false. */
    ghost method LeaveLoop(c: Client, acts: seq<Action>) returns (acts': seq<Action>)
      requires Valid() && fate == Running && SendInv(cfg, View())
      requires phase.Sending? && phase.stage == LoopHead && phase.tries > cfg.retransmissions
      requires Perform(cfg, c, acts) == Some(View())
      modifies this`phase
      ensures Valid() && SendInv(cfg, View()) && Perform(cfg, c, acts') == Some(View())
      ensures phase == old(phase).(stage := AfterLoop)
    {
      StepKeepsSendInv(cfg, View(), Attempt(false));
      PerformOne(cfg, c, acts, View(), Attempt(false));
      acts' := acts + [Attempt(false)];
      phase := phase.(stage := AfterLoop);
    }

    /** The create_*_msg and serialize_*_msg calls of the command functions. */
    method Serialize(r: Request) returns (msg: Bytes)
      requires Valid()
      ensures msg == Encode(ToMessage(r, ToId(ids.index)))
    {
      var id := ToId(ids.index);
      var buffer: array<byte>;
      match r {
        case AuthRequest(username, name, secret) => buffer := SerializeAuth(id, username, name, secret);
        case JoinRequest(channel, name) => buffer := SerializeJoin(id, channel, name);
        case SayRequest(name, content) => buffer := SerializeMsg(id, name, content);
        case ByeRequest(name) => buffer := SerializeBye(id, name);
      }
      msg := buffer[..];
    }

    /** The entry of `send_network_msg_udp` for a message that needs a confirmation. */
    method Begin(r: Request, bye: bool) returns (msg: Bytes)
      requires Valid()
      modifies this`log, this`phase, ids`index
      ensures Valid() && View() == BeginSend(old(View()), r, bye) && phase == Sending(LoopHead, msg, 0, bye)
    {
      msg := Serialize(r);
      log := log + [Emitted(msg)];
      ids.Next();
      phase := Sending(LoopHead, msg, 0, bye);
    }

    /** One line of user input, executed to the end of the send it causes. */
    method RunCommand(cmd: Command, turns: seq<Turn>, late: seq<Bytes>) returns (ghost acts: seq<Action>)
      requires Valid() && fate == Running && phase.Idle? && SendInv(cfg, View())
      requires |turns| > cfg.retransmissions
      requires TurnsHonest(Advance(ids.View()), turns) && AllHonest(Advance(ids.View()), late)
      modifies this, session, ids, ids.slots, seen, seen.ids
      ensures Valid() && ArraysMoved() && SendInv(cfg, View())
      ensures Perform(cfg, old(View()), [Input(cmd)] + acts) == Some(View())
      ensures fate != Running || phase.Idle?
    {
      ghost var c := View();
      StepKeepsSendInv(cfg, c, Input(cmd));
      PerformOne(cfg, c, [], c, Input(cmd));
      assert [] + [Input(cmd)] == [Input(cmd)];
      var emit := session.Run(cmd);
      acts := [];
      if emit.Some? {
        var msg := Begin(emit.value, false);
        assert View() == Step(cfg, c, Input(cmd));
        acts := Retry(msg, false, turns, late);
        PerformAppend(cfg, c, [Input(cmd)], Step(cfg, c, Input(cmd)), acts);
      } else {
        assert [Input(cmd)] + acts == [Input(cmd)];
      }
    }

    /** `graceful_quit` at the end of the input. */
    method Quit(turns: seq<Turn>, late: seq<Bytes>) returns (ghost acts: seq<Action>)
      requires Valid() && fate == Running && phase.Idle? && SendInv(cfg, View())
      requires |turns| > cfg.retransmissions
      requires TurnsHonest(Advance(ids.View()), turns) && AllHonest(Advance(ids.View()), late)
      modifies this, session`state, ids, ids.slots, seen, seen.ids
      ensures Valid() && ArraysMoved()
      ensures Perform(cfg, old(View()), [EndOfInput] + acts) == Some(View())
      ensures fate != Running
    {
      ghost var c := View();
      StepKeepsSendInv(cfg, c, EndOfInput);
      PerformOne(cfg, c, [], c, EndOfInput);
      assert [] + [EndOfInput] == [EndOfInput];
      var msg := Begin(ByeRequest(session.name), true);
      acts := Retry(msg, true, turns, late);
      PerformAppend(cfg, c, [EndOfInput], Step(cfg, c, EndOfInput), acts);
    }
  }
}
