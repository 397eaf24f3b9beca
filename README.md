# WiFi Direct controller (WPAp2p) in Dafny

This project models the `WPAp2p` controller of a small WiFi Direct
front end. The controller supervises `wpa_supplicant` through `wpa_cli`.
It keeps a FIFO queue of actions (discover peers, list peers, create or
remove a group, set the group-owner intent, change channel, query status).
A worker loop dispatches one action at a time and writes its command line.
The output handler reads the reply to the action in flight, emits events
(`status`, `groupStarted`, `groupStopped`, `devicesFound`, `enabled`), may
queue a follow-up status request, and marks the controller idle again.

Modules:

- `Text` (text.dfy): the Qt string operations the controller relies on.
  These are `indexOf`, `contains`, Qt 4's `mid` (a negative length means
  "to the end"), `split` with empty parts kept, `arg(int)` and `toLong`.
  They come with their inverses: split/join and render/parse.
- `Protocol` (protocol.dfy): action kinds, the command written per action,
  a decoder that reads a command back, status and peer extraction, and
  `Respond`, which is the output handler's switch as a pure function.
- `Process` (process.dfy): `proc_find` as a loop over an abstract `/proc`
  listing, proved against a first-match specification.
- `Controller` (controller.dfy): the class `WpaP2p`. Its fields are
  `queue`, `current`, `hasGroup` and `pid`. It also logs the lines
  written to wpa_cli and the events emitted, and counts the armed timers.
  A ghost history (`enqueued`, `retired`) and `Valid()` make the queue a
  FIFO over every action ever queued: each operation states exactly what it
  appends to that history, at the tail. `Tick` takes the head, and only a
  delivered kill in `SetEnabled` discards the rest. `Tick` is one iteration of `run()`.
  `OnOutput` is `readWPAStandartOutput`.
- `Scenarios` (scenarios.dfy): complete runs from construction onwards,
  proved from the operations' contracts.

Each public operation, each worker tick and each output delivery is one
atomic step. Some behaviour of the code is kept exactly as written:

- A dispatched channel change writes nothing but stays in flight. The
  queue stalls until some output arrives (`Scenarios.ChannelStalls`).
- Both `scan()` and the dispatch of a discovery arm a peer-list timer. When
  both fire, one scan asks for the peers twice (`Scenarios.ScanAsksTwice`).
- `start()` queues its first discovery only when `wpa_cli` started. It does
  not look at the pid.
- When spawning fails, the pid is left as it was, which is -1.

## Model

| member | source | states |
|---|---|---|
| Text.IndexOfFrom | src/wpap2p.cpp:88-89 | the result is the first position at or after `from` where the pattern occurs, or -1 exactly when it occurs nowhere there |
| Text.Mid | src/wpap2p.cpp:89-90 | Qt 4 `mid`: a negative length yields the rest of the text from the position; an in-range length yields exactly that slice |
| Text.Contains | src/wpap2p.cpp:94-101 | `contains` holds exactly when the pattern occurs somewhere in the text |
| Text.Split | src/wpap2p.cpp:113 | `split("\n")` keeps empty parts: the number of parts is the number of newlines plus one, no part holds a newline, and joining the parts with newlines gives the text back |
| Text.SplitJoin | src/wpap2p.cpp:113 | splitting undoes joining whenever no part holds the separator |
| Text.IntToString | src/wpap2p.cpp:144-145 | `arg(int)` renders a canonical numeral: decimal digits with no `+` and no leading zero, starting with `-` exactly for negative values. `toLong` parses it back to the same number |
| Text.ParseLong | src/wpap2p.cpp:31 | `toLong` succeeds exactly on an optional `+` or `-` followed by at least one decimal digit, and gives a negative number only after a `-`; `ParseRender` fixes the value of every canonical numeral |
| Text.ParseRender | src/wpap2p.cpp:31 | a canonical numeral, such as a process number in `/proc`, parses to the number that `arg(int)` renders as that same numeral |
| Protocol.Command | src/wpap2p.cpp:139-167 | dispatch writes a command exactly for kinds other than NONE and CHANGE_CHANNEL, and each command is a single newline-terminated line |
| Protocol.CommandDecodes | src/wpap2p.cpp:9-16 | every command line written identifies the action's kind unambiguously, and the intent line carries the action's value |
| Protocol.StatusValue | src/wpap2p.cpp:88-90 | a status is read exactly when the reply contains `wpa_state=`, and the status read holds no newline; `StatusOfReply` fixes it as the text after the first marker up to the next newline or the end |
| Protocol.StatusOfReply | src/wpap2p.cpp:87-91 | after the first `wpa_state=`, the status is the text up to the next newline, or up to the end when no newline follows |
| Protocol.PeerList | src/wpap2p.cpp:113-116 | peers are reported exactly when the reply has at least two newlines, and there are as many peers as newlines minus one; `PeersOfReply` fixes them as the middle lines, in order |
| Protocol.PeersOfReply | src/wpap2p.cpp:112-117 | a reply made of a first line, peer lines and a last line yields exactly the peer lines, in order, and yields nothing when there are no peer lines |
| Protocol.Respond | src/wpap2p.cpp:86-123 | a reply emits at most one event. A status request is queued after a scan, and after a group start or stop whose reply contains `OK`, and only then. `hasGroup` changes only on such a group reply (true after a start, false after a stop), with the matching group event. A group reply without `OK` changes nothing and emits nothing. Scan, intent and channel replies never emit an event, FAIL included. A peer-list reply with no peer lines changes nothing |
| Protocol.StatusReplyEmits | src/wpap2p.cpp:87-92 | a status reply carrying `wpa_state=v` emits `status(v)`, queues nothing and keeps `hasGroup` |
| Protocol.StatusReplySilent | src/wpap2p.cpp:87-92 | a status reply without `wpa_state=` emits nothing and changes nothing |
| Protocol.PeerReplyEmits | src/wpap2p.cpp:112-117 | a peer-list reply emits `devicesFound` with its middle lines, queues nothing and keeps `hasGroup` |
| Process.FirstLine | src/wpap2p.cpp:37 | `readLine` gives a prefix of the file that is the whole file or ends at its first newline |
| Process.FirstMatchFrom | src/wpap2p.cpp:30-44 | the index found is the first entry with a numeric name whose command line's first line contains the name; None means no entry matches |
| Process.ProcFind | src/wpap2p.cpp:19-47 | the loop returns the pid of the first matching entry, or -1 when /proc is missing or nothing matches |
| Process.FoundPidIsFirst | src/wpap2p.cpp:30-41 | a matching entry with no matching entry before it gives the pid reported |
| Process.FoundPidAbsent | src/wpap2p.cpp:24-46 | with /proc missing, or with no entry matching, the daemon is reported absent (-1) |
| Controller.WpaP2p.constructor | src/wpap2p.cpp:49-59 | a new controller is idle, has an empty queue and no group, and takes its pid from `proc_find("wpa_supplicant")` |
| Controller.WpaP2p.Enqueue | src/wpap2p.cpp:72 | the action is appended at the tail of the queue and of the history of queued actions, and nothing else changes |
| Controller.WpaP2p.GetPeers | src/wpap2p.cpp:67-73 | with the daemon absent the queue is unchanged; otherwise exactly one SCAN_RESULT is appended |
| Controller.WpaP2p.Scan | src/wpap2p.cpp:174-182 | with the daemon absent nothing changes; otherwise one SCANNING is appended and one peer-list timer is armed |
| Controller.WpaP2p.SetChannel | src/wpap2p.cpp:184-190 | with the daemon absent the queue is unchanged; otherwise one CHANGE_CHANNEL with the value is appended |
| Controller.WpaP2p.SetIntent | src/wpap2p.cpp:192-198 | with the daemon absent the queue is unchanged; otherwise one CHANGE_INTENT with the value is appended |
| Controller.WpaP2p.StartGroup | src/wpap2p.cpp:213-224 | with the daemon absent the queue is unchanged; otherwise STOP_GROUP is appended when a group exists, START_GROUP when none does |
| Controller.WpaP2p.Start | src/wpap2p.cpp:200-211 | once wpa_cli has started, one SCANNING is appended and a timer is armed whatever the pid; otherwise nothing changes |
| Controller.WpaP2p.TimerFires | src/wpap2p.cpp:181 | a firing timer is used up and acts as `getPeers` |
| Controller.WpaP2p.SetEnabled | src/wpap2p.cpp:226-253 | enabling with a pid present, or disabling with none, changes nothing. A spawn sets the pid to the reported one plus one, emits `enabled(true)` and queues a status request. A failed spawn emits only `enabled(false)`. A delivered kill clears the pid, emits `enabled(false)`, empties the queue and makes the controller idle. A failed kill changes nothing. The history of queued actions grows by the status request after a spawn and by nothing otherwise, and only a delivered kill retires actions |
| Controller.WpaP2p.Tick | src/wpap2p.cpp:131-171 | only when idle with a non-empty queue: the oldest action queued and not yet retired is removed and put in flight, its command (if any) is written, and a discovery arms a timer. Otherwise nothing changes |
| Controller.WpaP2p.OnOutput | src/wpap2p.cpp:75-127 | output while idle changes nothing. Otherwise `Respond` gives the events, follow-ups and `hasGroup`, the follow-ups are appended to the queue and to its history, and the controller ends idle |
| Scenarios.AbsentDaemonScan | src/wpap2p.cpp:174-176 | with no daemon process in the listing, `scan` queues nothing and the worker writes nothing |
| Scenarios.IntentIsWritten | src/wpap2p.cpp:143-146 | `setIntent(7)` with the daemon present makes the worker write `set p2p_go_intent 7` |
| Scenarios.GroupToggles | src/wpap2p.cpp:93-99 | START_GROUP with an `OK` reply emits `groupStarted`, sets `hasGroup` and queues a status request; the next toggle queues STOP_GROUP |
| Scenarios.EnableReadsStatus | src/wpap2p.cpp:231-240 | enabling records the corrected pid and queues a status request; the reply's `wpa_state=COMPLETED` line becomes `status("COMPLETED")` |
| Scenarios.ScanAsksTwice | src/wpap2p.cpp:150-154 | one scan leads to a status request and to two peer-list requests, whatever the reply to the discovery says, FAIL included |
| Scenarios.PeersReported | src/wpap2p.cpp:112-117 | a peer-list reply ending in a newline reports the lines between its first line and the empty last part |
| Scenarios.ChannelStalls | src/wpap2p.cpp:140-142 | a dispatched channel change writes nothing and stays in flight, so the actions behind it are not dispatched |
| Scenarios.DisableDiscards | src/wpap2p.cpp:244-252 | disabling drops the queued and in-flight actions; later ticks and the scan timer dispatch nothing |

## Left out

- Threads, the mutex and the sleeps in `run()` and `setEnabled` are not modelled. The public operations enqueue without the lock, and the idle check in the output handler runs before locking. Both are races, and the model does not capture them: every operation, tick and output delivery is one atomic step.
- Process I/O is not modelled. `QProcess` writes become the `written` log. Reading the output becomes the `text` argument of `OnOutput`. `startDetached`, its pid and `kill` become the arguments of `SetEnabled`.
- The `/proc` directory and its cmdline files become inputs: whether `/proc` exists, and a list of entries, each with what reading its cmdline gave. The entries come in the order `entryList()` returns them, which is by name, ignoring case (so "1000" before "999"); the model takes that order as given. The code opens `/proc/<number>/cmdline` by the parsed number, and the model takes, per entry, what that read produced. Only the first line that `readLine` returns is searched, and only for entries with numeric names.
- Timers are not modelled in time. `pendingTimers` counts the timers armed, and `TimerFires` is one of them firing, at whatever point the caller chooses.
- Controller.WpaP2p.TimerFires: any armed timer may fire, which over-approximates the program. The timer armed when a discovery is dispatched (src/wpap2p.cpp:153) belongs to the worker thread, and `run()` never processes events, so that timer may never fire. `Scenarios.ScanAsksTwice` fires both timers by choice.
- Controller.WpaP2p.OnOutput: output that arrives while nothing is in flight is not read (src/wpap2p.cpp:77-78). It stays buffered and becomes the start of the next reply. The model does not keep that buffer, so the caller must pass that earlier output at the head of the `text` of the next `OnOutput`.
- Logging is not modelled. This covers the FAIL log lines after a scan or intent change, the channel log, and the fall-through from SCAN_RESULT into the CHANGE_INTENT check, whose only effect is a log line.
- The destructor, the `wpa_cli` launch inside `start()`, its 3-second wait and `QThread::start` are not modelled. Only the enqueue and the timer that follow a successful launch are. In the code the worker only runs once `start()` has launched `wpa_cli` and queued its first discovery (src/wpap2p.cpp:203-210). The model lets `Tick` run from construction on, which allows more than the program does, and the scenarios skip `start()`'s first discovery.
- The spawn arguments of `wpa_supplicant` are not modelled. The model uses only the spawn's outcome.
- Controller.WpaP2p.StartGroup: the code leaves the action's value uninitialised. The model queues 0. No dispatch of a group action reads the value.
- Text.ParseLong: `toLong` also rejects numbers outside the range of `long`, and the model does not. Nor does it accept surrounding whitespace. Process names in `/proc` contain neither.
- Process.FirstLine: the model does not translate a carriage return before a newline, which text mode does. This cannot change whether the first line contains `wpa_supplicant`.
- Controller.WpaP2p.SetEnabled: the pid is an unbounded integer, so a 64-bit overflow of the reported pid plus one is not modelled.
- Protocol.Command: the discovery command is the literal `p2p_find 20000`, with the 20000 ms timeout already filled in, not formatted from the constant.
- `src/mainwindow.h` only declares the window and its slots, so it is not part of this model.
