/** The WPAp2p controller: a queue of pending actions, the one action in
    flight, the group flag and the daemon pid, updated in place by the public
    operations, by one iteration of the worker loop (Tick) and by the output
    handler (OnOutput). Each of these runs here as one atomic step. */
module Controller {
  import opened Text
  import opened Protocol
  import Process

  class WpaP2p {
    /** actionsQueue, oldest first. */
    var queue: seq<Action>
    /** currentAction; NoAction when the worker may dispatch. */
    var current: Kind
    var hasGroup: bool
    /** WPAPid; -1 when the daemon is absent. */
    var pid: int
    /** Every command line written to wpa_cli, in order. */
    var written: seq<string>
    /** Every signal emitted, in order. */
    var events: seq<Event>
    /** Armed one-shot timers that will call getPeers when they fire. */
    var pendingTimers: nat

    /** Every action ever queued, in queue order, and how many of them have
        left the queue (dispatched or discarded). */
    ghost var enqueued: seq<Action>
    ghost var retired: nat

    /** The queue is exactly the actions queued and not yet taken out: it is
        a FIFO over the history of requests. */
    ghost predicate Valid()
      reads this
    {
      retired <= |enqueued| && queue == enqueued[retired..]
    }

    /** The constructor: idle, no group, and the pid of a running daemon as
        proc_find reports it from the given /proc listing. */
    constructor (procMounted: bool, entries: seq<Process.ProcEntry>)
      ensures Valid()
      ensures queue == [] && current == NoAction && !hasGroup
      ensures written == [] && events == [] && pendingTimers == 0
      ensures pid == Process.FoundPid(procMounted, entries, Process.DaemonName)
    {
      var found := Process.ProcFind(procMounted, entries, Process.DaemonName);
      queue := [];
      current := NoAction;
      hasGroup := false;
      written := [];
      events := [];
      pendingTimers := 0;
      enqueued := [];
      retired := 0;
      pid := found;
    }

    /** actionsQueue.enqueue. */
    method Enqueue(a: Action)
      requires Valid()
      modifies this`queue, this`enqueued
      ensures Valid()
      ensures queue == old(queue) + [a] && enqueued == old(enqueued) + [a]
    {
      queue := queue + [a];
      enqueued := enqueued + [a];
    }

    /** getPeers: queue a peer-list request when the daemon is present. */
    method GetPeers()
      requires Valid()
      modifies this`queue, this`enqueued
      ensures Valid()
      ensures old(enqueued) <= enqueued
      ensures queue == if pid == -1 then old(queue) else old(queue) + [Action(ScanResult, 0)]
    {
      if pid == -1 {
        return;
      }
      Enqueue(Action(ScanResult, 0));
    }

    /** scan: queue a discovery and arm the timer that asks for the peers
        TIMEOUT later. */
    method Scan()
      requires Valid()
      modifies this`queue, this`enqueued, this`pendingTimers
      ensures Valid()
      ensures old(enqueued) <= enqueued
      ensures pid == -1 ==> queue == old(queue) && pendingTimers == old(pendingTimers)
      ensures pid != -1 ==> queue == old(queue) + [Action(Scanning, 0)]
      ensures pid != -1 ==> pendingTimers == old(pendingTimers) + 1
    {
      if pid == -1 {
        return;
      }
      Enqueue(Action(Scanning, 0));
      pendingTimers := pendingTimers + 1;
    }

    /** setChannel: queue a channel change carrying `value`. */
    method SetChannel(value: int)
      requires Valid()
      modifies this`queue, this`enqueued
      ensures Valid()
      ensures old(enqueued) <= enqueued
      ensures queue == if pid == -1 then old(queue) else old(queue) + [Action(ChangeChannel, value)]
    {
      if pid == -1 {
        return;
      }
      Enqueue(Action(ChangeChannel, value));
    }

    /** setIntent: queue a group-owner intent change carrying `value`. */
    method SetIntent(value: int)
      requires Valid()
      modifies this`queue, this`enqueued
      ensures Valid()
      ensures old(enqueued) <= enqueued
      ensures queue == if pid == -1 then old(queue) else old(queue) + [Action(ChangeIntent, value)]
    {
      if pid == -1 {
        return;
      }
      Enqueue(Action(ChangeIntent, value));
    }

    /** startGroup: toggle the group; queue its removal when one exists, its
        creation otherwise. */
    method StartGroup()
      requires Valid()
      modifies this`queue, this`enqueued
      ensures Valid()
      ensures old(enqueued) <= enqueued
      ensures queue == if pid == -1 then old(queue)
                       else old(queue) + [Action(if hasGroup then StopGroup else Protocol.StartGroup, 0)]
    {
      if pid == -1 {
        return;
      }
      var kind := if hasGroup then StopGroup else Protocol.StartGroup;
      Enqueue(Action(kind, 0));
    }

    /** start: once wpa_cli is up (`launched`), queue a first discovery and
        arm its peer-list timer; this does not look at the pid. */
    method Start(launched: bool)
      requires Valid()
      modifies this`queue, this`enqueued, this`pendingTimers
      ensures Valid()
      ensures old(enqueued) <= enqueued
      ensures !launched ==> queue == old(queue) && pendingTimers == old(pendingTimers)
      ensures launched ==> queue == old(queue) + [Action(Scanning, 0)]
      ensures launched ==> pendingTimers == old(pendingTimers) + 1
    {
      if !launched {
        return;
      }
      Enqueue(Action(Scanning, 0));
      pendingTimers := pendingTimers + 1;
    }

    /** One armed timer fires and calls getPeers. */
    method TimerFires()
      requires Valid() && pendingTimers > 0
      modifies this`queue, this`enqueued, this`pendingTimers
      ensures Valid()
      ensures old(enqueued) <= enqueued
      ensures pendingTimers == old(pendingTimers) - 1
      ensures queue == if pid == -1 then old(queue) else old(queue) + [Action(ScanResult, 0)]
    {
      pendingTimers := pendingTimers - 1;
      GetPeers();
    }

    /** setEnabled(state). Starting the daemon reports `spawned` and the pid
        it was given (`reportedPid`, one less than the real one); stopping it
        reports whether the kill signal was delivered (`killed`). */
    method SetEnabled(state: bool, spawned: bool, reportedPid: int, killed: bool)
      requires Valid()
      modifies this`pid, this`events, this`queue, this`enqueued, this`retired, this`current
      ensures Valid()
      ensures enqueued == old(enqueued) + (if state && old(pid) == -1 && spawned then [StatusRequest] else [])
      ensures !(!state && old(pid) != -1 && killed) ==> retired == old(retired)
      ensures state && old(pid) != -1 ==> unchanged(this)
      ensures state && old(pid) == -1 && spawned ==>
                pid == reportedPid + 1 && events == old(events) + [Enabled(true)] &&
                queue == old(queue) + [StatusRequest] && current == old(current)
      ensures state && old(pid) == -1 && !spawned ==>
                pid == -1 && events == old(events) + [Enabled(false)] &&
                queue == old(queue) && current == old(current)
      ensures !state && (old(pid) == -1 || !killed) ==> unchanged(this)
      ensures !state && old(pid) != -1 && killed ==>
                pid == -1 && events == old(events) + [Enabled(false)] &&
                queue == [] && current == NoAction
    {
      if state {
        if pid != -1 {
          return;
        }
        if spawned {
          events := events + [Enabled(true)];
          pid := reportedPid + 1;
          Enqueue(StatusRequest);
        } else {
          events := events + [Enabled(false)];
        }
      } else {
        if pid == -1 {
          return;
        }
        if killed {
          pid := -1;
          events := events + [Enabled(false)];
          queue := [];
          retired := |enqueued|;
          current := NoAction;
        }
      }
    }

    /** One iteration of the worker loop: when nothing is in flight and the
        queue is not empty, take the oldest action, mark it in flight and
        write its command (a discovery also arms the peer-list timer). */
    method Tick()
      requires Valid()
      modifies this`queue, this`retired, this`current, this`written, this`pendingTimers
      ensures Valid()
      ensures old(current) != NoAction || old(queue) == [] ==> unchanged(this)
      ensures old(current) == NoAction && old(queue) != [] ==>
                var a := old(queue)[0];
                a == old(enqueued)[old(retired)] && retired == old(retired) + 1 &&
                queue == old(queue)[1..] && current == a.kind &&
                written == old(written) + (if Command(a).Some? then [Command(a).value] else []) &&
                pendingTimers == old(pendingTimers) + (if a.kind == Scanning then 1 else 0)
    {
      if current != NoAction || queue == [] {
        return;
      }
      var a := queue[0];
      queue := queue[1..];
      retired := retired + 1;
      current := a.kind;
      match a.kind {
        case ChangeChannel =>
          // only logged: nothing is written for a channel change
        case Scanning =>
          written := written + [Command(a).value];
          pendingTimers := pendingTimers + 1;
        case NoAction =>
        case _ =>
          written := written + [Command(a).value];
      }
    }

    /** readWPAStandartOutput: output that arrives while nothing is in flight
        is left unread; otherwise it is read as the reply to the action in
        flight, and the controller becomes idle again. */
    method OnOutput(text: string)
      requires Valid()
      modifies this`current, this`hasGroup, this`events, this`queue, this`enqueued
      ensures Valid()
      ensures old(enqueued) <= enqueued
      ensures old(current) == NoAction ==> unchanged(this)
      ensures old(current) != NoAction ==>
                var r := Respond(old(current), text, old(hasGroup));
                current == NoAction && hasGroup == r.hasGroup &&
                events == old(events) + r.events && queue == old(queue) + r.followUps &&
                enqueued == old(enqueued) + r.followUps
    {
      if current == NoAction {
        return;
      }
      var r := Respond(current, text, hasGroup);
      events := events + r.events;
      hasGroup := r.hasGroup;
      if r.followUps != [] {
        Enqueue(r.followUps[0]);
      }
      current := NoAction;
    }
  }
}
