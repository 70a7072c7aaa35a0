/** The background schedule: its fixed table, the in-place synchronisation with an app's
    manifest, and which entry is due. */
module Scheduler {
  import opened Bytes
  import opened Calendar
  import Cron

  const MAX_ENTRIES: nat := 8
  const NAME_SIZE: nat := 32
  const CRON_SIZE: nat := 24

  datatype Entry = Entry(app: string, task: string, interval: nat, cron: string, lastRun: nat)
  datatype Task = Task(name: string, interval: nat, cron: string)

  /** jpp_str_copy into a buffer of n bytes. */
  function Cut(s: string, n: nat): string
    requires n > 0
  {
    s[..Min(|s|, n - 1)]
  }

  /** The entries of other apps, in order. */
  function Others(es: seq<Entry>, app: string): seq<Entry> {
    if es == [] then []
    else Others(es[..|es| - 1], app) + if es[|es| - 1].app == app then [] else [es[|es| - 1]]
  }

  /** The entries of this app, in order. */
  function Own(es: seq<Entry>, app: string): seq<Entry> {
    if es == [] then []
    else Own(es[..|es| - 1], app) + if es[|es| - 1].app == app then [es[|es| - 1]] else []
  }

  /** last_run of the first entry with this task name, 0 when there is none. */
  function LastRun(es: seq<Entry>, name: string): nat {
    if es == [] then 0 else if es[0].task == name then es[0].lastRun else LastRun(es[1..], name)
  }

  function NewEntry(prev: seq<Entry>, app: string, t: Task): Entry {
    Entry(Cut(app, NAME_SIZE), Cut(t.name, NAME_SIZE), t.interval, Cut(t.cron, CRON_SIZE), LastRun(prev, t.name))
  }

  function Enrolled(prev: seq<Entry>, app: string, tasks: seq<Task>): (es: seq<Entry>)
    ensures |es| == |tasks|
  {
    seq(|tasks|, i requires 0 <= i < |tasks| => NewEntry(prev, app, tasks[i]))
  }

  /** How many of the tasks find room. */
  function Room(es: seq<Entry>, app: string, tasks: seq<Task>): (n: nat)
    ensures n <= |tasks|
  {
    Min(|tasks|, if |Others(es, app)| >= MAX_ENTRIES then 0 else MAX_ENTRIES - |Others(es, app)|)
  }

  /** The table after sync_app: the other apps as they were, then the app's tasks in
      manifest order, as many as fit, each with the last run of its name. */
  function Synced(es: seq<Entry>, app: string, tasks: seq<Task>): seq<Entry> {
    Others(es, app) + Enrolled(Own(es, app), app, tasks[..Room(es, app, tasks)])
  }

  lemma EnrolOne(prev: seq<Entry>, app: string, tasks: seq<Task>, i: nat)
    requires i < |tasks|
    ensures Enrolled(prev, app, tasks[..i + 1]) == Enrolled(prev, app, tasks[..i]) + [NewEntry(prev, app, tasks[i])]
  {
    hide NewEntry;
  }

  lemma OneMore(es: seq<Entry>, i: nat, app: string)
    requires i < |es|
    ensures Others(es[..i + 1], app) == Others(es[..i], app) + if es[i].app == app then [] else [es[i]]
    ensures Own(es[..i + 1], app) == Own(es[..i], app) + if es[i].app == app then [es[i]] else []
  {
    assert es[..i + 1][..i] == es[..i];
  }

  /** Is the entry due, with the sum of the last run and the interval in 32 bits. */
  predicate EntryDue(e: Entry, now: DateTime) {
    if e.interval > 0 then e.lastRun == 0 || Epoch(now) >= (e.lastRun + e.interval) % U32
    else Cron.Matches(e.cron, Cron.Fields(now)) && Epoch(now) / 60 != e.lastRun / 60
  }

  /** The first due entry at or after `from`. */
  function FirstDue(es: seq<Entry>, now: DateTime, from: nat): (r: Option<nat>)
    requires from <= |es|
    ensures r.Some? ==> from <= r.value < |es| && EntryDue(es[r.value], now)
    ensures forall j :: from <= j < (if r.Some? then r.value else |es|) ==> !EntryDue(es[j], now)
    decreases |es| - from
  {
    if from == |es| then None else if EntryDue(es[from], now) then Some(from) else FirstDue(es, now, from + 1)
  }

  predicate HasKey(e: Entry, app: string, task: string) {
    e.app == app && e.task == task
  }

  /** The first entry with the key at or after `from`. */
  function FirstKey(es: seq<Entry>, app: string, task: string, from: nat): (r: Option<nat>)
    requires from <= |es|
    ensures r.Some? ==> from <= r.value < |es| && HasKey(es[r.value], app, task)
    ensures forall j :: from <= j < (if r.Some? then r.value else |es|) ==> !HasKey(es[j], app, task)
    decreases |es| - from
  {
    if from == |es| then None else if HasKey(es[from], app, task) then Some(from) else FirstKey(es, app, task, from + 1)
  }

  /** The table after mark_run: the first entry with the key carries the epoch. */
  function Marked(es: seq<Entry>, app: string, task: string, epoch: nat): seq<Entry> {
    var k := FirstKey(es, app, task, 0);
    if k.Some? then es[k.value := es[k.value].(lastRun := epoch)] else es
  }

  lemma Shift(a: seq<Entry>, i: nat, n: nat, was: seq<Entry>)
    requires i < n <= |a| && n == |was| && a[i..n] == was[i..]
    ensures a[i] == was[i] && a[i + 1..n] == was[i + 1..]
  {
    assert a[i..n][0] == was[i..][0];
    assert a[i..n][1..] == was[i..][1..];
  }

  class Schedule {
    const entries: array<Entry>
    var count: nat

    ghost predicate Valid()
      reads this
    {
      entries.Length == MAX_ENTRIES && count <= MAX_ENTRIES
    }

    ghost function Contents(): seq<Entry>
      requires Valid()
      reads this, entries
    {
      entries[..count]
    }

    constructor ()
      ensures Valid() && fresh(entries) && Contents() == []
    {
      entries := new Entry[MAX_ENTRIES](_ => Entry("", "", 0, "", 0));
      count := 0;
    }

    /** Moves entry i down to w, leaving everything below w and above i. */
    method KeepAt(w: nat, i: nat) returns (next: nat)
      requires Valid() && w <= i < count
      modifies entries
      ensures next == w + 1 && entries[..next] == old(entries[..w]) + [old(entries[i])]
      ensures entries[i + 1..count] == old(entries[i + 1..count])
    {
      if w != i {
        entries[w] := entries[i];
      }
      next := w + 1;
      assert entries[..next] == entries[..w] + [entries[w]];
    }

    /** Drops the app's entries, closing the gaps in place, and returns what it dropped. */
    method Compact(app: string) returns (prev: seq<Entry>)
      requires Valid()
      modifies this, entries
      ensures Valid() && Contents() == Others(old(Contents()), app) && prev == Own(old(Contents()), app)
    {
      ghost var was := Contents();
      prev := [];
      var w := 0;
      assert Others(was[..0], app) == [] && Own(was[..0], app) == [];
      hide Others, Own;
      for i := 0 to count
        invariant w <= i && count == old(count) && entries.Length == MAX_ENTRIES
        invariant entries[..w] == Others(was[..i], app) && prev == Own(was[..i], app)
        invariant entries[i..count] == was[i..]
      {
        OneMore(was, i, app);
        Shift(entries[..], i, count, was);
        assert entries[i + 1..count] == was[i + 1..];
        if entries[i].app == app {
          prev := prev + [entries[i]];
        } else {
          w := KeepAt(w, i);
        }
      }
      assert was[..|was|] == was;
      count := w;
    }

    method AddTask(prev: seq<Entry>, app: string, t: Task)
      requires Valid() && count < MAX_ENTRIES
      modifies this, entries
      ensures Valid() && Contents() == old(Contents()) + [NewEntry(prev, app, t)]
    {
      var last := FindLastRun(prev, t.name);
      entries[count] := Entry(Cut(app, NAME_SIZE), Cut(t.name, NAME_SIZE), t.interval, Cut(t.cron, CRON_SIZE), last);
      count := count + 1;
    }

    /** sync_app */
    method SyncApp(app: string, tasks: seq<Task>)
      requires Valid()
      modifies this, entries
      ensures Valid() && Contents() == Synced(old(Contents()), app, tasks)
    {
      hide Enrolled, NewEntry, Others, Own;
      ghost var was := Contents();
      var prev := Compact(app);
      ghost var others := Contents();
      assert others + Enrolled(prev, app, tasks[..0]) == others;
      var i := 0;
      while i < |tasks| && count < MAX_ENTRIES
        invariant Valid() && i <= |tasks| && count == |others| + i
        invariant Contents() == others + Enrolled(prev, app, tasks[..i])
      {
        AddTask(prev, app, tasks[i]);
        EnrolOne(prev, app, tasks, i);
        i := i + 1;
      }
      assert i == Room(was, app, tasks);
    }

    /** due: the app and task of the first due entry. */
    method Due(now: DateTime) returns (r: Option<(string, string)>)
      requires Valid()
      ensures r == var k := FirstDue(Contents(), now, 0);
                   if k.None? then None else Some((Contents()[k.value].app, Contents()[k.value].task))
    {
      hide EntryDue;
      for i := 0 to count
        invariant FirstDue(Contents(), now, 0) == FirstDue(Contents(), now, i)
      {
        var due := CheckDue(entries[i], now);
        if due {
          return Some((entries[i].app, entries[i].task));
        }
      }
      r := None;
    }

    /** mark_run with the epoch the clock gave, 0 when it could not be read. */
    method MarkRun(app: string, task: string, epoch: nat)
      requires Valid()
      modifies entries
      ensures Valid() && Contents() == Marked(old(Contents()), app, task, epoch)
    {
      ghost var was := Contents();
      for i := 0 to count
        invariant Contents() == was && FirstKey(was, app, task, 0) == FirstKey(was, app, task, i)
      {
        if HasKey(entries[i], app, task) {
          entries[i] := entries[i].(lastRun := epoch);
          assert Contents() == was[i := was[i].(lastRun := epoch)];
          return;
        }
      }
    }
  }

  method CheckDue(e: Entry, now: DateTime) returns (due: bool)
    ensures due == EntryDue(e, now)
  {
    hide Epoch, Days, Cron.Fields, Cron.Matches, Cron.MinuteAllowed, Cron.Text;
    if e.interval > 0 {
      due := e.lastRun == 0 || Epoch(now) >= (e.lastRun + e.interval) % U32;
    } else {
      due := Cron.CronMatches(e.cron, now);
      due := due && Epoch(now) / 60 != e.lastRun / 60;
    }
  }

  method FindLastRun(prev: seq<Entry>, name: string) returns (last: nat)
    ensures last == LastRun(prev, name)
  {
    last := 0;
    for j := 0 to |prev|
      invariant last == 0 && LastRun(prev, name) == LastRun(prev[j..], name)
    {
      assert prev[j..][0] == prev[j] && prev[j..][1..] == prev[j + 1..];
      if prev[j].task == name {
        return prev[j].lastRun;
      }
    }
  }
}
