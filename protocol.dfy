/** The control protocol spoken with wpa_cli: the actions the controller
    queues, the command line each one writes, and how a reply to the action
    in flight is read into events and follow-up actions. */
module Protocol {
  import opened Text

  /** The action kinds; NoAction is the controller's idle marker (NONE). */
  datatype Kind =
    | NoAction
    | GettingStatus
    | StartGroup
    | StopGroup
    | Scanning
    | ScanResult
    | ChangeIntent
    | ChangeChannel

  /** ActionValue: a kind and its parameter (the intent or channel). */
  datatype Action = Action(kind: Kind, value: int)

  /** The signals the controller emits. */
  datatype Event =
    | Status(state: string)
    | GroupStarted
    | GroupStopped
    | DevicesFound(peers: seq<string>)
    | Enabled(on: bool)

  /** The follow-up the controller queues after several replies. */
  const StatusRequest := Action(GettingStatus, 0)

  const CreateGroupCmd := "p2p_group_add\n"
  const GetPeersCmd := "p2p_peers\n"
  const GetStatusCmd := "status\n"
  /** P2P_FIND with the 20 s discovery TIMEOUT (in milliseconds) filled in. */
  const FindPeersCmd := "p2p_find 20000\n"
  /** REMOVE_GROUP with the interface wlan0 filled in. */
  const RemoveGroupCmd := "p2p_group_remove wlan0\n"
  /** SET_COMMAND with the key p2p_go_intent filled in; the value follows. */
  const SetIntentPrefix := "set p2p_go_intent "

  const StatusMarker := "wpa_state="

  /** A single command line: newline-terminated, with no other newline. */
  predicate IsLine(c: string)
  {
    |c| >= 1 && c[|c| - 1] == '\n' && '\n' !in c[..|c| - 1]
  }

  /** What the worker writes to wpa_cli when it dispatches `a`; None for the
      kinds it writes nothing for (a channel change is only logged). */
  function Command(a: Action): (r: Option<string>)
    ensures r.Some? <==> a.kind != NoAction && a.kind != ChangeChannel
    ensures r.Some? ==> IsLine(r.value)
  {
    match a.kind
    case ChangeIntent =>
      IntentIsLine(a.value);
      Some(SetIntentPrefix + IntToString(a.value) + "\n")
    case GettingStatus => Some(GetStatusCmd)
    case Scanning => Some(FindPeersCmd)
    case ScanResult => Some(GetPeersCmd)
    case StartGroup => Some(CreateGroupCmd)
    case StopGroup => Some(RemoveGroupCmd)
    case ChangeChannel => None
    case NoAction => None
  }

  /** The intent command is one line: the rendered number holds no newline. */
  lemma IntentIsLine(value: int)
    ensures IsLine(SetIntentPrefix + IntToString(value) + "\n")
  {
  }

  /** Reads a command line back into the action it requests. Only the intent
      travels on the wire, so every other action reads back with value 0. */
  function DecodeCommand(line: string): Option<Action>
  {
    if line == GetStatusCmd then Some(Action(GettingStatus, 0))
    else if line == FindPeersCmd then Some(Action(Scanning, 0))
    else if line == GetPeersCmd then Some(Action(ScanResult, 0))
    else if line == CreateGroupCmd then Some(Action(StartGroup, 0))
    else if line == RemoveGroupCmd then Some(Action(StopGroup, 0))
    else if |line| > |SetIntentPrefix| + 1 && line[..|SetIntentPrefix|] == SetIntentPrefix
            && line[|line| - 1] == '\n' then
      match ParseLong(line[|SetIntentPrefix|..|line| - 1])
      case Some(v) => Some(Action(ChangeIntent, v))
      case None => None
    else None
  }

  /** The action with the parameter the wire carries for it. */
  function OnWire(a: Action): Action
  {
    if a.kind == ChangeIntent then a else Action(a.kind, 0)
  }

  /** Every command the worker writes names its action unambiguously. */
  lemma CommandDecodes(a: Action)
    requires Command(a).Some?
    ensures DecodeCommand(Command(a).value) == Some(OnWire(a))
  {
    if a.kind == ChangeIntent {
      var d := IntToString(a.value);
      var c := SetIntentPrefix + d + "\n";
      assert c[0] == 's' && c[1] == 'e';
      assert c[..|SetIntentPrefix|] == SetIntentPrefix;
      assert c[|SetIntentPrefix|..|c| - 1] == d;
    }
  }

  /** The status reported by a GETTING_STATUS reply: the text after the first
      "wpa_state=" up to the next newline (or to the end when no newline
      follows, as Qt's mid does with a negative length). */
  function StatusValue(text: string): (r: Option<string>)
    ensures r.Some? <==> Contains(text, StatusMarker)
    ensures r.Some? ==> '\n' !in r.value
  {
    var index := IndexOfFrom(text, StatusMarker, 0);
    if index == -1 then None
    else
      ValueIsOneLine(text, index);
      Some(Mid(text, index + 10, IndexOfFrom(text, "\n", index) - index - 10))
  }

  /** What follows a marker up to the next newline (or the end) holds no newline. */
  lemma ValueIsOneLine(text: string, index: int)
    requires 0 <= index && OccursAt(text, StatusMarker, index)
    ensures '\n' !in Mid(text, index + 10, IndexOfFrom(text, "\n", index) - index - 10)
  {
    assert text[index..index + 10] == StatusMarker;
    var nl := IndexOfFrom(text, "\n", index);
    NoNewlineInMarker(text, index, nl);
    var v := Mid(text, index + 10, nl - index - 10);
    if nl == -1 {
      assert v == text[index + 10..];
      forall j | index + 10 <= j < |text| ensures text[j] != '\n' {
        assert !OccursAt(text, "\n", j);
      }
    } else {
      assert v == text[index + 10..nl];
      forall j | index + 10 <= j < nl ensures text[j] != '\n' {
        assert !OccursAt(text, "\n", j);
      }
    }
  }

  /** The newline search from the marker cannot stop inside the marker. */
  lemma NoNewlineInMarker(text: string, index: int, nl: int)
    requires 0 <= index && index + 10 <= |text| && text[index..index + 10] == StatusMarker
    requires nl == IndexOfFrom(text, "\n", index)
    ensures nl == -1 || index + 10 <= nl
  {
    MarkerChars();
    forall j | index <= j < index + 10 ensures !OccursAt(text, "\n", j) {
      assert text[j] == text[index..index + 10][j - index];
      if j + 1 <= |text| {
        assert text[j..j + 1] == [text[j]];
      }
    }
  }

  /** "wpa_state=" holds no newline, and its only '=' is its last character. */
  lemma MarkerChars()
    ensures forall j :: 0 <= j < |StatusMarker| ==> StatusMarker[j] != '\n'
    ensures forall j :: 0 <= j < |StatusMarker| - 1 ==> StatusMarker[j] != '='
  {
  }

  /** "wpa_state=" cannot begin inside text that is then followed by the
      marker itself unless it already occurs in that text: its final '='
      appears nowhere else in it. */
  lemma FirstMarker(p: string, tail: string)
    requires !Contains(p, StatusMarker)
    ensures IndexOfFrom(p + StatusMarker + tail, StatusMarker, 0) == |p|
  {
    var t := p + StatusMarker + tail;
    assert t[|p|..|p| + 10] == StatusMarker;
    MarkerChars();
    forall i | 0 <= i < |p| ensures !OccursAt(t, StatusMarker, i) {
      if i + 10 <= |p| {
        assert t[i..i + 10] == p[i..i + 10];
        assert !OccursAt(p, StatusMarker, i);
      } else {
        assert t[i..i + 10][9] == t[i + 9] == StatusMarker[i + 9 - |p|] != '=';
      }
    }
    IndexOfFromIs(t, StatusMarker, 0, |p|);
  }

  /** The newline search from `from` stops at `end`: the first newline there,
      or nowhere when `end` is the end of the text. */
  lemma NextNewline(t: string, from: nat, end: nat)
    requires from <= end <= |t|
    requires forall j :: from <= j < end ==> t[j] != '\n'
    requires end == |t| || t[end] == '\n'
    ensures IndexOfFrom(t, "\n", from) == if end == |t| then -1 else end
  {
    forall j | from <= j < end ensures !OccursAt(t, "\n", j) {
      assert t[j..j + 1][0] == t[j];
    }
    if end < |t| {
      assert t[end..end + 1] == "\n";
      IndexOfFromIs(t, "\n", from, end);
    }
  }

  /** Status round trip: a reply holding "wpa_state=" + v, with v ending at a
      newline or at the end of the text, reports exactly v. */
  lemma StatusOfReply(p: string, v: string, rest: string)
    requires !Contains(p, StatusMarker)
    requires '\n' !in v
    requires rest == [] || rest[0] == '\n'
    ensures StatusValue(p + StatusMarker + v + rest) == Some(v)
  {
    var t := p + StatusMarker + v + rest;
    assert t == p + StatusMarker + (v + rest);
    FirstMarker(p, v + rest);
    var start := |p| + 10;
    var end := start + |v|;
    assert t[start..end] == v;
    MarkerChars();
    forall j | |p| <= j < end ensures t[j] != '\n' {
      if j < start {
        assert t[j] == StatusMarker[j - |p|];
      } else {
        assert t[j] == v[j - start];
      }
    }
    assert end == |t| || t[end] == '\n';
    NextNewline(t, |p|, end);
    if rest == [] {
      assert t[start..] == v;
    }
  }

  /** The peers in a SCAN_RESULT reply: split on newlines, drop the first and
      the last part, and report the rest when there is any (more than two parts). */
  function PeerList(text: string): (r: Option<seq<string>>)
    ensures r.Some? <==> Count(text, '\n') >= 2
    ensures r.Some? ==> |r.value| == Count(text, '\n') - 1
  {
    var parts := Split(text, '\n');
    if |parts| > 2 then Some(parts[1..|parts| - 1]) else None
  }

  /** Peers round trip: a reply laid out as a first line, one line per peer
      and a last line reports exactly the peers, in order. */
  lemma PeersOfReply(first: string, peers: seq<string>, last: string)
    requires '\n' !in first && '\n' !in last
    requires forall k :: 0 <= k < |peers| ==> '\n' !in peers[k]
    ensures PeerList(Join([first] + peers + [last], '\n')) ==
            if peers == [] then None else Some(peers)
  {
    var parts := [first] + peers + [last];
    LinesHoldNoNewline(first, peers, last);
    SplitJoin(parts, '\n');
    PeerListOfParts(Join(parts, '\n'), parts);
    assert parts[1..|parts| - 1] == peers;
  }

  lemma LinesHoldNoNewline(first: string, peers: seq<string>, last: string)
    requires '\n' !in first && '\n' !in last
    requires forall k :: 0 <= k < |peers| ==> '\n' !in peers[k]
    ensures var parts := [first] + peers + [last];
            forall k :: 0 <= k < |parts| ==> '\n' !in parts[k]
  {
    var parts := [first] + peers + [last];
    forall k | 0 <= k < |parts| ensures '\n' !in parts[k] {
      if 0 < k < |parts| - 1 {
        assert parts[k] == peers[k - 1];
      }
    }
  }

  /** PeerList reads the middle parts of the split reply. */
  lemma PeerListOfParts(text: string, parts: seq<string>)
    requires Split(text, '\n') == parts
    ensures PeerList(text) == if |parts| > 2 then Some(parts[1..|parts| - 1]) else None
  {
  }

  /** The effect of one reply on the controller: events to emit, actions to
      queue after it, and the new hasGroup. */
  datatype Reaction = Reaction(events: seq<Event>, followUps: seq<Action>, hasGroup: bool)

  /** readWPAStandartOutput's switch on the action in flight, applied to the
      reply `text`. FAIL in a scan or intent reply is only logged. */
  function Respond(kind: Kind, text: string, hasGroup: bool): (r: Reaction)
    ensures |r.events| <= 1
    ensures r.followUps == [] || r.followUps == [StatusRequest]
    ensures r.followUps != [] <==>
              kind == Scanning || ((kind == StartGroup || kind == StopGroup) && Contains(text, "OK"))
    ensures r.hasGroup != hasGroup ==> kind == StartGroup || kind == StopGroup
    ensures kind == StartGroup && Contains(text, "OK") ==> r.hasGroup && r.events == [GroupStarted]
    ensures kind == StopGroup && Contains(text, "OK") ==> !r.hasGroup && r.events == [GroupStopped]
    ensures (kind == StartGroup || kind == StopGroup) && !Contains(text, "OK") ==> r == Reaction([], [], hasGroup)
    ensures kind == Scanning || kind == ChangeIntent || kind == ChangeChannel ==> r.events == []
    ensures kind == ScanResult && PeerList(text).None? ==> r == Reaction([], [], hasGroup)
  {
    match kind
    case GettingStatus =>
      (match StatusValue(text)
       case Some(v) => Reaction([Status(v)], [], hasGroup)
       case None => Reaction([], [], hasGroup))
    case StartGroup =>
      if Contains(text, "OK") then Reaction([GroupStarted], [StatusRequest], true)
      else Reaction([], [], hasGroup)
    case StopGroup =>
      if Contains(text, "OK") then Reaction([GroupStopped], [StatusRequest], false)
      else Reaction([], [], hasGroup)
    case Scanning => Reaction([], [StatusRequest], hasGroup)
    case ScanResult =>
      (match PeerList(text)
       case Some(peers) => Reaction([DevicesFound(peers)], [], hasGroup)
       case None => Reaction([], [], hasGroup))
    case ChangeIntent => Reaction([], [], hasGroup)
    case ChangeChannel => Reaction([], [], hasGroup)
    case NoAction => Reaction([], [], hasGroup)
  }

  /** A status reply whose "wpa_state=" line reads v emits status(v) and
      changes nothing else. */
  lemma StatusReplyEmits(p: string, v: string, rest: string, hasGroup: bool)
    requires !Contains(p, StatusMarker) && '\n' !in v
    requires rest == [] || rest[0] == '\n'
    ensures Respond(GettingStatus, p + StatusMarker + v + rest, hasGroup) ==
            Reaction([Status(v)], [], hasGroup)
  {
    StatusOfReply(p, v, rest);
  }

  /** A status reply without the marker emits nothing. */
  lemma StatusReplySilent(text: string, hasGroup: bool)
    requires !Contains(text, StatusMarker)
    ensures Respond(GettingStatus, text, hasGroup) == Reaction([], [], hasGroup)
  {
  }

  /** A peer-list reply emits the lines between its first and last, in order,
      and leaves the queue and hasGroup alone. */
  lemma PeerReplyEmits(first: string, peers: seq<string>, last: string, hasGroup: bool)
    requires '\n' !in first && '\n' !in last && peers != []
    requires forall k :: 0 <= k < |peers| ==> '\n' !in peers[k]
    ensures Respond(ScanResult, Join([first] + peers + [last], '\n'), hasGroup) ==
            Reaction([DevicesFound(peers)], [], hasGroup)
  {
    var text := Join([first] + peers + [last], '\n');
    PeersOfReply(first, peers, last);
    assert PeerList(text) == Some(peers);
  }
}
