/** Runs of the controller from construction on, each stating what wpa_cli
    is sent, what is emitted and what is left queued. They are proved from
    the contracts of the controller's operations alone. */
module Scenarios {
  import opened Text
  import opened Protocol
  import opened Process
  import opened Controller

  /** A /proc listing in which the daemon runs as process 42. */
  function DaemonListing(): seq<ProcEntry>
  {
    [ProcEntry("42", Some("wpa_supplicant\0-B\0-iwlan0\0"))]
  }

  /** A controller constructed while the daemon runs as process 42. */
  method Running() returns (c: WpaP2p)
    ensures fresh(c) && c.Valid()
    ensures c.queue == [] && c.current == NoAction && !c.hasGroup && c.pid == 42
    ensures c.written == [] && c.events == [] && c.pendingTimers == 0
  {
    var listing := DaemonListing();
    var cmdline := listing[0].cmdline.value;
    assert '\n' !in cmdline;
    assert FirstLine(cmdline) == cmdline;
    assert cmdline[0..14] == DaemonName;
    IndexOfFromIs(cmdline, DaemonName, 0, 0);
    assert "42"[..1] == "4" && DigitsValue("4") == 4;
    assert ParseLong("42") == Some(42);
    FoundPidIsFirst(true, listing, DaemonName, 0);
    c := new WpaP2p(true, listing);
  }

  /** With no daemon found in /proc (entries that are not numbers or whose
      cmdline cannot be read are skipped), scan queues nothing and no
      command is ever written. */
  method AbsentDaemonScan() returns (pid: int, written: seq<string>, queue: seq<Action>)
    ensures pid == -1 && written == [] && queue == []
  {
    var listing := [ProcEntry("self", Some("bash")), ProcEntry("17", None)];
    assert !IsDigit('s');
    FoundPidAbsent(true, listing, DaemonName);
    var c := new WpaP2p(true, listing);
    c.Scan();
    c.Tick();
    pid, written, queue := c.pid, c.written, c.queue;
  }

  /** setIntent(7) on a running daemon makes the worker write
      "set p2p_go_intent 7". */
  method IntentIsWritten() returns (written: seq<string>, current: Kind)
    ensures written == ["set p2p_go_intent 7\n"] && current == ChangeIntent
  {
    var c := Running();
    c.SetIntent(7);
    c.Tick();
    assert IntToString(7) == "7";
    assert Command(Action(ChangeIntent, 7)).value == "set p2p_go_intent 7\n";
    written, current := c.written, c.current;
  }

  /** The group toggles: the first startGroup creates a group, an "OK" reply
      emits groupStarted, sets hasGroup and queues a status request, and
      the next startGroup asks for the group's removal. */
  method GroupToggles() returns (written: seq<string>, events: seq<Event>, queue: seq<Action>, hasGroup: bool)
    ensures written == ["p2p_group_add\n"] && events == [GroupStarted] && hasGroup
    ensures queue == [Action(GettingStatus, 0), Action(StopGroup, 0)]
  {
    var c := Running();
    c.StartGroup();
    c.Tick();
    assert c.current == Protocol.StartGroup && c.queue == [] && c.written == [CreateGroupCmd];
    assert OccursAt("OK\n", "OK", 0);
    assert Respond(Protocol.StartGroup, "OK\n", false) == Reaction([GroupStarted], [StatusRequest], true);
    c.OnOutput("OK\n");
    assert c.hasGroup && c.queue == [StatusRequest] && c.pid == 42;
    c.StartGroup();
    written, events, queue, hasGroup := c.written, c.events, c.queue, c.hasGroup;
  }

  /** Enabling the daemon records the corrected pid, emits enabled(true) and
      asks for the status; the reply's wpa_state line becomes status("COMPLETED"). */
  method EnableReadsStatus() returns (pid: int, written: seq<string>, events: seq<Event>)
    ensures pid == 1234
    ensures written == ["status\n"]
    ensures events == [Enabled(true), Status("COMPLETED")]
  {
    var c := new WpaP2p(false, []);
    c.SetEnabled(true, true, 1233, false);
    c.Tick();
    var head, rest := "id=0\n", "\nip_address=192.168.1.2\n";
    assert !Contains(head, StatusMarker);
    StatusReplyEmits(head, "COMPLETED", rest, false);
    c.OnOutput(head + StatusMarker + "COMPLETED" + rest);
    pid, written, events := c.pid, c.written, c.events;
  }

  /** A controller whose scan has been dispatched: the discovery is in
      flight, its command written, and both peer-list timers armed. */
  method DiscoveryInFlight() returns (c: WpaP2p)
    ensures fresh(c) && c.Valid()
    ensures c.queue == [] && c.current == Scanning && !c.hasGroup && c.pid == 42
    ensures c.written == [FindPeersCmd] && c.pendingTimers == 2
  {
    c := Running();
    c.Scan();
    c.Tick();
  }

  /** One scan asks for the peers twice: the timer armed by scan and the one
      armed when the discovery is dispatched both fire getPeers. Whatever the
      reply to the discovery says, FAIL included, a status request follows. */
  method ScanAsksTwice(reply: string) returns (written: seq<string>, queue: seq<Action>)
    ensures written == ["p2p_find 20000\n"]
    ensures queue == [Action(GettingStatus, 0), Action(ScanResult, 0), Action(ScanResult, 0)]
  {
    var c := DiscoveryInFlight();
    assert Respond(Scanning, reply, false) == Reaction([], [StatusRequest], false);
    c.OnOutput(reply);
    assert c.queue == [StatusRequest] && c.pendingTimers == 2 && c.pid == 42;
    c.TimerFires();
    c.TimerFires();
    written, queue := c.written, c.queue;
  }

  /** A controller whose peer-list request has been dispatched. */
  method PeerRequestInFlight() returns (c: WpaP2p)
    ensures fresh(c) && c.Valid()
    ensures c.queue == [] && c.current == ScanResult && !c.hasGroup
    ensures c.written == [GetPeersCmd] && c.events == []
  {
    c := Running();
    c.GetPeers();
    c.Tick();
  }

  /** A peer-list reply reports the lines between its first and its last
      (the last being empty after the final newline). */
  method PeersReported() returns (written: seq<string>, events: seq<Event>)
    ensures written == ["p2p_peers\n"]
    ensures events == [DevicesFound(["02:00:00:00:01:00", "02:00:00:00:02:00"])]
  {
    var c := PeerRequestInFlight();
    var first, peers, last := "p2p_peers", ["02:00:00:00:01:00", "02:00:00:00:02:00"], "";
    PeerReplyEmits(first, peers, last, false);
    c.OnOutput(Join([first] + peers + [last], '\n'));
    written, events := c.written, c.events;
  }

  /** A channel change writes nothing yet stays in flight, so actions queued
      behind it wait until some output arrives. */
  method ChannelStalls() returns (written: seq<string>, current: Kind, queue: seq<Action>)
    ensures written == [] && current == ChangeChannel && queue == [Action(ChangeIntent, 3)]
  {
    var c := Running();
    c.SetChannel(6);
    c.SetIntent(3);
    c.Tick();
    c.Tick();
    c.Tick();
    written, current, queue := c.written, c.current, c.queue;
  }

  /** Disabling a running daemon drops what is queued and in flight; the
      worker then dispatches nothing and the scan timer finds no daemon. */
  method DisableDiscards() returns (written: seq<string>, events: seq<Event>, queue: seq<Action>, current: Kind)
    ensures written == ["p2p_find 20000\n"] && events == [Enabled(false)]
    ensures queue == [] && current == NoAction
  {
    var c := Running();
    c.Scan();
    c.SetIntent(1);
    c.Tick();
    c.SetEnabled(false, false, 0, true);
    c.Tick();
    c.TimerFires();
    c.Tick();
    written, events, queue, current := c.written, c.events, c.queue, c.current;
  }
}
