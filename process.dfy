/** proc_find: locating the daemon by scanning the /proc directory. The
    directory listing and the cmdline files are inputs here. */
module Process {
  import opened Text

  /** The daemon the controller supervises (WPA_PROCESS_NAME). */
  const DaemonName := "wpa_supplicant"

  /** One entry of the /proc listing: its file name and what reading
      /proc/<pid>/cmdline gave (None when the file could not be opened). */
  datatype ProcEntry = ProcEntry(name: string, cmdline: Option<string>)

  /** QIODevice::readLine: the text up to and including the first newline,
      or all of it when there is none. */
  function FirstLine(s: string): (r: string)
    ensures r <= s
    ensures r == [] || '\n' !in r[..|r| - 1]
    ensures r == s || (|r| >= 1 && r[|r| - 1] == '\n')
  {
    var nl := IndexOfFrom(s, "\n", 0);
    if nl == -1 then
      NoNewline(s);
      s
    else
      assert s[nl..nl + 1] == "\n";
      forall j | 0 <= j < nl ensures s[j] != '\n' {
        assert !OccursAt(s, "\n", j);
        assert s[j..j + 1] == [s[j]];
      }
      s[..nl + 1]
  }

  lemma NoNewline(s: string)
    requires IndexOfFrom(s, "\n", 0) == -1
    ensures '\n' !in s
  {
    forall j | 0 <= j < |s| ensures s[j] != '\n' {
      assert !OccursAt(s, "\n", j);
      assert s[j..j + 1] == [s[j]];
    }
  }

  /** The entry is a process (its name reads as a number) whose command line
      mentions `name` on its first line. */
  predicate Matches(e: ProcEntry, name: string)
  {
    ParseLong(e.name).Some? && e.cmdline.Some? && Contains(FirstLine(e.cmdline.value), name)
  }

  /** The index of the first matching entry at or after `from`. */
  function FirstMatchFrom(entries: seq<ProcEntry>, name: string, from: nat): (r: Option<nat>)
    ensures r.Some? ==> from <= r.value < |entries| && Matches(entries[r.value], name)
    ensures r.Some? ==> forall j :: from <= j < r.value ==> !Matches(entries[j], name)
    ensures r.None? ==> forall j :: from <= j < |entries| ==> !Matches(entries[j], name)
    decreases |entries| - from
  {
    if from >= |entries| then None
    else if Matches(entries[from], name) then Some(from)
    else FirstMatchFrom(entries, name, from + 1)
  }

  /** What proc_find reports: -1 when /proc cannot be opened or nothing
      matches, else the number named by the first matching entry. */
  function FoundPid(procMounted: bool, entries: seq<ProcEntry>, name: string): int
  {
    if !procMounted then -1
    else match FirstMatchFrom(entries, name, 0)
      case Some(k) => ParseLong(entries[k].name).value
      case None => -1
  }

  /** proc_find: walks the listing in order, skipping names that are not
      numbers and cmdline files that cannot be opened, and returns at the
      first command line that contains `name`. */
  method ProcFind(procMounted: bool, entries: seq<ProcEntry>, name: string) returns (pid: int)
    ensures pid == FoundPid(procMounted, entries, name)
  {
    if !procMounted {
      return -1;
    }
    var i := 0;
    while i < |entries|
      invariant 0 <= i <= |entries|
      invariant FirstMatchFrom(entries, name, i) == FirstMatchFrom(entries, name, 0)
    {
      var lpid := ParseLong(entries[i].name);
      if lpid.Some? {
        var cmdline := entries[i].cmdline;
        if cmdline.Some? {
          var cmd := FirstLine(cmdline.value);
          if Contains(cmd, name) {
            assert Matches(entries[i], name);
            return lpid.value;
          }
        }
      }
      assert !Matches(entries[i], name);
      i := i + 1;
    }
    return -1;
  }

  /** The pid found names a process whose command line mentions `name`, and
      no earlier entry of the listing is one. */
  lemma FoundPidIsFirst(procMounted: bool, entries: seq<ProcEntry>, name: string, k: nat)
    requires procMounted && k < |entries| && Matches(entries[k], name)
    requires forall j :: 0 <= j < k ==> !Matches(entries[j], name)
    ensures FoundPid(procMounted, entries, name) == ParseLong(entries[k].name).value
  {
  }

  /** Nothing matching (or no /proc) means the daemon is absent. */
  lemma FoundPidAbsent(procMounted: bool, entries: seq<ProcEntry>, name: string)
    requires !procMounted || forall j :: 0 <= j < |entries| ==> !Matches(entries[j], name)
    ensures FoundPid(procMounted, entries, name) == -1
  {
  }
}
