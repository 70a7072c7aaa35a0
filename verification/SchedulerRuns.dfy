/** What the schedule keeps: laws of the synchronisation, and runs of polls and
    synchronisations. */
module SchedulerRuns {
  import opened Bytes
  import opened Calendar
  import opened Scheduler
  import Cron

  predicate AllOf(es: seq<Entry>, app: string) {
    forall i :: 0 <= i < |es| ==> es[i].app == app
  }

  predicate NoneOf(es: seq<Entry>, app: string) {
    forall i :: 0 <= i < |es| ==> es[i].app != app
  }

  lemma {:induction false} FilterAppend(a: seq<Entry>, b: seq<Entry>, app: string)
    ensures Others(a + b, app) == Others(a, app) + Others(b, app)
    ensures Own(a + b, app) == Own(a, app) + Own(b, app)
    decreases |b|
  {
    if b == [] {
      assert a + b == a;
    } else {
      var c := b[..|b| - 1];
      assert (a + b)[..|a + b| - 1] == a + c;
      FilterAppend(a, c, app);
    }
  }

  lemma {:induction false} FilterPure(es: seq<Entry>, app: string)
    ensures NoneOf(es, app) ==> Others(es, app) == es && Own(es, app) == []
    ensures AllOf(es, app) ==> Others(es, app) == [] && Own(es, app) == es
  {
    hide Others, Own;
    if es == [] {
      FilterEmpty(app);
    } else {
      FilterPure(es[..|es| - 1], app);
      FilterLast(es, app);
    }
  }

  lemma FilterEmpty(app: string)
    ensures Others([], app) == [] == Own([], app)
  {
  }

  lemma FilterLast(es: seq<Entry>, app: string)
    requires es != []
    ensures var front, e := es[..|es| - 1], es[|es| - 1];
            && (e.app == app ==> Others(es, app) == Others(front, app) && Own(es, app) == Own(front, app) + [e])
            && (e.app != app ==> Others(es, app) == Others(front, app) + [e] && Own(es, app) == Own(front, app))
            && front + [e] == es
  {
    assert forall s: seq<Entry> :: s + [] == s;
  }

  lemma {:induction false} FilterKinds(es: seq<Entry>, app: string)
    ensures NoneOf(Others(es, app), app) && AllOf(Own(es, app), app)
    ensures |Others(es, app)| <= |es|
  {
    if es != [] {
      FilterKinds(es[..|es| - 1], app);
    }
  }

  lemma {:induction false} OwnAfterOthers(es: seq<Entry>, app: string, b: string)
    requires app != b
    ensures Own(Others(es, app), b) == Own(es, b)
  {
    if es != [] {
      var e := es[|es| - 1];
      var front := Others(es[..|es| - 1], app);
      OwnAfterOthers(es[..|es| - 1], app, b);
      FilterAppend(front, [e], b);
      FilterPure([e], b);
      assert front + [] == front && Own(es[..|es| - 1], b) + [] == Own(es[..|es| - 1], b);
      assert Others(es, app) == if e.app == app then front else front + [e];
    }
  }

  /** A synchronisation leaves every other app's entries as they were and in order (any
      app whose id is not the shortened id written for this one). */
  lemma OtherAppsUntouched(es: seq<Entry>, app: string, tasks: seq<Task>, b: string)
    requires b != app && b != Cut(app, NAME_SIZE)
    ensures Own(Synced(es, app, tasks), b) == Own(es, b)
  {
    var added := Enrolled(Own(es, app), app, tasks[..Room(es, app, tasks)]);
    FilterAppend(Others(es, app), added, b);
    OwnAfterOthers(es, app, b);
    FilterPure(added, b);
  }

  predicate ShortNames(tasks: seq<Task>) {
    forall i :: 0 <= i < |tasks| ==> |tasks[i].name| < NAME_SIZE
  }

  lemma {:induction false} LastRunOfEnrolled(prev: seq<Entry>, app: string, tasks: seq<Task>, k: nat)
    requires ShortNames(tasks) && k < |tasks|
    ensures LastRun(Enrolled(prev, app, tasks), tasks[k].name) == LastRun(prev, tasks[k].name)
    decreases |tasks|
  {
    var es := Enrolled(prev, app, tasks);
    assert es[0].task == tasks[0].name;
    if tasks[0].name != tasks[k].name {
      assert es[1..] == Enrolled(prev, app, tasks[1..]);
      LastRunOfEnrolled(prev, app, tasks[1..], k - 1);
    }
  }

  lemma EnrolledAgain(prev: seq<Entry>, app: string, tasks: seq<Task>)
    requires ShortNames(tasks)
    ensures Enrolled(Enrolled(prev, app, tasks), app, tasks) == Enrolled(prev, app, tasks)
  {
    forall k | 0 <= k < |tasks|
      ensures Enrolled(Enrolled(prev, app, tasks), app, tasks)[k] == Enrolled(prev, app, tasks)[k]
    {
      LastRunOfEnrolled(prev, app, tasks, k);
    }
  }

  /** The first entry with the name counts; a name that is not there never ran. */
  lemma {:induction false} LastRunIs(es: seq<Entry>, name: string, k: nat)
    requires k <= |es| && (forall i :: 0 <= i < k ==> es[i].task != name) && (k < |es| ==> es[k].task == name)
    ensures LastRun(es, name) == if k < |es| then es[k].lastRun else 0
  {
    if k > 0 {
      LastRunIs(es[1..], name, k - 1);
    }
  }

  /** Entries hold ids that went through the 32-byte copy. */
  predicate Stored(es: seq<Entry>) {
    |es| <= MAX_ENTRIES && forall i :: 0 <= i < |es| ==> |es[i].app| < NAME_SIZE
  }

  lemma SyncKeepsStored(es: seq<Entry>, app: string, tasks: seq<Task>)
    requires Stored(es)
    ensures Stored(Synced(es, app, tasks))
  {
    FilterKinds(es, app);
    KeepsShort(es, app);
    var n := Room(es, app, tasks);
    var added := Enrolled(Own(es, app), app, tasks[..n]);
    assert forall i :: 0 <= i < n ==> |added[i].app| < NAME_SIZE;
    hide Others, Own, Enrolled;
  }

  lemma {:induction false} KeepsShort(es: seq<Entry>, app: string)
    requires forall i :: 0 <= i < |es| ==> |es[i].app| < NAME_SIZE
    ensures forall i :: 0 <= i < |Others(es, app)| ==> |Others(es, app)[i].app| < NAME_SIZE
  {
    if es != [] {
      KeepsShort(es[..|es| - 1], app);
    }
  }

  /** An id that fits: the second synchronisation finds the entries of the first. */
  lemma ShortIdAgain(es: seq<Entry>, app: string, tasks: seq<Task>)
    requires ShortNames(tasks) && |app| < NAME_SIZE
    ensures var once := Synced(es, app, tasks);
            && Others(once, app) == Others(es, app) && Room(once, app, tasks) == Room(es, app, tasks)
            && Own(once, app) == Enrolled(Own(es, app), app, tasks[..Room(es, app, tasks)])
            && Synced(once, app, tasks) == once
  {
    hide Enrolled, Others, Own, ShortNames;
    FilteredAgain(es, app, tasks);
    ShortPrefix(tasks, Room(es, app, tasks));
    EnrolledAgain(Own(es, app), app, tasks[..Room(es, app, tasks)]);
  }

  lemma ShortPrefix(tasks: seq<Task>, n: nat)
    requires ShortNames(tasks) && n <= |tasks|
    ensures ShortNames(tasks[..n])
  {
  }

  lemma FilteredAgain(es: seq<Entry>, app: string, tasks: seq<Task>)
    requires |app| < NAME_SIZE
    ensures Others(Synced(es, app, tasks), app) == Others(es, app)
    ensures Own(Synced(es, app, tasks), app) == Enrolled(Own(es, app), app, tasks[..Room(es, app, tasks)])
  {
    hide Enrolled, Others, Own, NoneOf, AllOf, Room;
    var others := Others(es, app);
    var added := Enrolled(Own(es, app), app, tasks[..Room(es, app, tasks)]);
    FilterKinds(es, app);
    FilterAppend(others, added, app);
    FilterPure(others, app);
    AllEnrolled(Own(es, app), app, tasks[..Room(es, app, tasks)]);
    FilterPure(added, app);
    assert others + [] == others && [] + added == added;
  }

  lemma AllEnrolled(prev: seq<Entry>, app: string, tasks: seq<Task>)
    requires |app| < NAME_SIZE
    ensures AllOf(Enrolled(prev, app, tasks), app)
  {
    hide LastRun;
  }

  /** What a synchronisation leaves of the app: its tasks in manifest order, as many as fit
      behind the other apps' entries, each with its name, interval, cron text and last run. */
  lemma SyncedTask(es: seq<Entry>, app: string, tasks: seq<Task>, i: nat)
    requires ShortNames(tasks) && |app| < NAME_SIZE && i < |Own(Synced(es, app, tasks), app)|
    ensures var own := Own(Synced(es, app, tasks), app);
            && |own| == Min(|tasks|, if |Others(es, app)| >= 8 then 0 else 8 - |Others(es, app)|)
            && own[i].app == app && own[i].task == tasks[i].name && own[i].interval == tasks[i].interval
            && own[i].cron == tasks[i].cron[..Min(|tasks[i].cron|, 23)]
            && own[i].lastRun == LastRun(Own(es, app), tasks[i].name)
  {
    hide Synced, Own, Others, LastRun, Enrolled, NewEntry;
    ShortIdAgain(es, app, tasks);
    var n := Room(es, app, tasks);
    EnrolledAt(Own(es, app), app, tasks[..n], i);
    assert tasks[..n][i] == tasks[i];
    EntryIs(Own(es, app), app, tasks[i]);
  }

  lemma EnrolledAt(prev: seq<Entry>, app: string, tasks: seq<Task>, i: nat)
    requires i < |tasks|
    ensures Enrolled(prev, app, tasks)[i] == NewEntry(prev, app, tasks[i])
  {
    hide NewEntry;
  }

  lemma EntryIs(prev: seq<Entry>, app: string, t: Task)
    requires |app| < NAME_SIZE && |t.name| < NAME_SIZE
    ensures NewEntry(prev, app, t) == Entry(app, t.name, t.interval, t.cron[..Min(|t.cron|, 23)], LastRun(prev, t.name))
  {
    hide LastRun;
  }

  /** An id that does not fit: no stored entry is recognised, and what has room is added. */
  lemma LongIdAdds(es: seq<Entry>, app: string, tasks: seq<Task>)
    requires Stored(es) && |app| >= NAME_SIZE
    ensures |Synced(es, app, tasks)| == |es| + Min(|tasks|, MAX_ENTRIES - |es|)
    ensures |es| == MAX_ENTRIES ==> Synced(es, app, tasks) == es
  {
    assert NoneOf(es, app);
    FilterPure(es, app);
    hide Others, Own;
    var none := Enrolled(Own(es, app), app, tasks[..Room(es, app, tasks)]);
    assert es + [] == es;
    assert |none| == 0 ==> none == [];
  }

  /** Synchronising twice with the same tasks changes nothing more, exactly when the app's
      id fits its field, or there was nothing to add, or no room was left. A longer id is
      stored shortened and never recognised again. */
  lemma SyncTwiceIff(es: seq<Entry>, app: string, tasks: seq<Task>)
    requires Stored(es) && ShortNames(tasks)
    ensures var once := Synced(es, app, tasks);
            Synced(once, app, tasks) == once <==>
            |app| < NAME_SIZE || tasks == [] || |once| == MAX_ENTRIES
  {
    var once := Synced(es, app, tasks);
    SyncKeepsStored(es, app, tasks);
    if |app| < NAME_SIZE {
      ShortIdAgain(es, app, tasks);
    } else {
      hide Synced;
      LongIdAdds(once, app, tasks);
      if tasks == [] {
        NothingToAdd(once, app);
      }
    }
  }

  lemma NothingToAdd(es: seq<Entry>, app: string)
    requires Stored(es) && |app| >= NAME_SIZE
    ensures Synced(es, app, []) == es
  {
    assert NoneOf(es, app);
    FilterPure(es, app);
    hide Others, Own;
    assert es + [] == es;
    assert |Enrolled(Own(es, app), app, [])| == 0;
  }

  predicate SameKey(a: Entry, b: Entry) {
    a.app == b.app && a.task == b.task
  }

  predicate UniqueKeys(es: seq<Entry>) {
    forall i, j :: 0 <= i < j < |es| ==> !SameKey(es[i], es[j])
  }

  predicate DistinctNames(tasks: seq<Task>) {
    forall i, j :: 0 <= i < j < |tasks| ==> tasks[i].name != tasks[j].name
  }

  lemma {:induction false} FilterMembers(es: seq<Entry>, app: string, e: Entry)
    ensures e in Others(es, app) <==> e in es && e.app != app
    ensures e in Own(es, app) <==> e in es && e.app == app
  {
    if es != [] {
      FilterMembers(es[..|es| - 1], app, e);
      assert es == es[..|es| - 1] + [es[|es| - 1]];
    }
  }

  lemma {:induction false} FilterUnique(es: seq<Entry>, app: string)
    requires UniqueKeys(es)
    ensures UniqueKeys(Others(es, app)) && UniqueKeys(Own(es, app))
  {
    if es != [] {
      var front, e := es[..|es| - 1], es[|es| - 1];
      FilterUnique(front, app);
      forall i | 0 <= i < |Others(front, app)|
        ensures !SameKey(Others(front, app)[i], e)
      {
        FilterMembers(front, app, Others(front, app)[i]);
      }
      forall i | 0 <= i < |Own(front, app)|
        ensures !SameKey(Own(front, app)[i], e)
      {
        FilterMembers(front, app, Own(front, app)[i]);
      }
    }
  }

  /** (app, task) stays a key through a synchronisation with distinct names that fit. */
  lemma SyncKeepsUnique(es: seq<Entry>, app: string, tasks: seq<Task>)
    requires UniqueKeys(es) && |app| < NAME_SIZE && ShortNames(tasks) && DistinctNames(tasks)
    ensures UniqueKeys(Synced(es, app, tasks))
  {
    FilterUnique(es, app);
    FilterKinds(es, app);
    var n := Room(es, app, tasks);
    var others, added := Others(es, app), Enrolled(Own(es, app), app, tasks[..n]);
    assert forall i :: 0 <= i < n ==> added[i].app == app && added[i].task == tasks[i].name;
    hide Others, Own, Enrolled;
  }

  lemma {:induction false} LastRunOfKey(es: seq<Entry>, e: Entry)
    requires UniqueKeys(es) && e in es && AllOf(es, e.app)
    ensures LastRun(es, e.task) == e.lastRun
  {
    if es[0].task == e.task {
      var i :| 0 <= i < |es| && es[i] == e;
      assert i > 0 ==> SameKey(es[0], es[i]);
    } else {
      assert e in es[1..];
      LastRunOfKey(es[1..], e);
    }
  }

  /** The entry a manifest asks for. */
  datatype Plan = Plan(app: string, task: string, interval: nat, cron: string)

  function Planned(p: Plan, last: nat): Entry {
    Entry(p.app, p.task, p.interval, p.cron, last)
  }

  predicate Asks(t: Task, p: Plan) {
    t.name == p.task && t.interval == p.interval && Cut(t.cron, CRON_SIZE) == p.cron
  }

  datatype Event = Poll(due: DateTime, mark: DateTime) | Sync(app: string, tasks: seq<Task>)

  /** One turn of the idle loop: a due task is marked before it is launched. */
  function Step(es: seq<Entry>, ev: Event): seq<Entry> {
    match ev
    case Poll(due, mark) =>
      var k := FirstDue(es, due, 0);
      if k.None? then es else Marked(es, es[k.value].app, es[k.value].task, Epoch(mark))
    case Sync(app, tasks) => Synced(es, app, tasks)
  }

  /** Does this event launch the task of the plan? */
  predicate Launches(es: seq<Entry>, ev: Event, p: Plan) {
    ev.Poll? &&
    var k := FirstDue(es, ev.due, 0);
    k.Some? && HasKey(es[k.value], p.app, p.task)
  }

  function Table(es: seq<Entry>, run: seq<Event>): seq<Entry> {
    if run == [] then es else Step(Table(es, run[..|run| - 1]), run[|run| - 1])
  }

  /** The times at which the task was launched. */
  function Fires(es: seq<Entry>, run: seq<Event>, p: Plan): seq<DateTime> {
    if run == [] then []
    else
      var (front, ev) := (run[..|run| - 1], run[|run| - 1]);
      Fires(es, front, p) + if Launches(Table(es, front), ev, p) then [ev.due] else []
  }

  /** When it was last marked. */
  function LastMark(es: seq<Entry>, run: seq<Event>, p: Plan, last: nat): nat {
    if run == [] then last
    else
      var (front, ev) := (run[..|run| - 1], run[|run| - 1]);
      if Launches(Table(es, front), ev, p) then Epoch(ev.mark) else LastMark(es, front, p, last)
  }

  /** The last clock reading. */
  function Now(run: seq<Event>, start: nat): nat {
    if run == [] then start
    else if run[|run| - 1].Poll? then Epoch(run[|run| - 1].mark)
    else Now(run[..|run| - 1], start)
  }

  /** What the events must be: a readable clock that does not go back, sums that fit 32
      bits, and manifests with distinct names that fit and still ask for the plan. */
  predicate Proper(es: seq<Entry>, ev: Event, now: nat, p: Plan) {
    match ev
    case Poll(due, mark) =>
      && InRange(due) && InRange(mark) && due.date.year >= 2000
      && now <= Epoch(due) <= Epoch(mark) && Epoch(mark) + p.interval < U32
    case Sync(app, tasks) =>
      && |app| < NAME_SIZE && ShortNames(tasks) && DistinctNames(tasks)
      && (app == p.app ==> exists i :: 0 <= i < Room(es, app, tasks) && Asks(tasks[i], p))
  }

  predicate ProperRun(es: seq<Entry>, run: seq<Event>, start: nat, p: Plan) {
    run == [] ||
    var (front, ev) := (run[..|run| - 1], run[|run| - 1]);
    ProperRun(es, front, start, p) && Proper(Table(es, front), ev, Now(front, start), p)
  }

  /** The plan is in the table, with its last mark, and keys are unique. */
  predicate Inv(es: seq<Entry>, p: Plan, last: nat) {
    UniqueKeys(es) && Planned(p, last) in es
  }

  lemma SyncKeepsPlan(es: seq<Entry>, app: string, tasks: seq<Task>, p: Plan, last: nat)
    requires Inv(es, p, last) && |app| < NAME_SIZE && ShortNames(tasks) && DistinctNames(tasks)
    requires app == p.app ==> exists i :: 0 <= i < Room(es, app, tasks) && Asks(tasks[i], p)
    ensures Inv(Synced(es, app, tasks), p, last)
  {
    var e := Planned(p, last);
    SyncKeepsUnique(es, app, tasks);
    FilterMembers(es, app, e);
    hide Others, Own, UniqueKeys;
    var n := Room(es, app, tasks);
    if app == p.app {
      var i :| 0 <= i < n && Asks(tasks[i], p);
      FilterUnique(es, app);
      FilterKinds(es, app);
      LastRunOfKey(Own(es, app), e);
      assert Enrolled(Own(es, app), app, tasks[..n])[i] == e;
    }
  }

  lemma FirstKeyIs(es: seq<Entry>, k: nat)
    requires UniqueKeys(es) && k < |es|
    ensures FirstKey(es, es[k].app, es[k].task, 0) == Some(k)
  {
    var r := FirstKey(es, es[k].app, es[k].task, 0);
    assert HasKey(es[k], es[k].app, es[k].task);
    assert forall i :: 0 <= i < k ==> !SameKey(es[i], es[k]);
    hide FirstKey;
  }

  lemma MarkKeepsPlan(es: seq<Entry>, k: nat, p: Plan, last: nat, epoch: nat)
    requires Inv(es, p, last) && k < |es|
    ensures Inv(Marked(es, es[k].app, es[k].task, epoch), p, if HasKey(es[k], p.app, p.task) then epoch else last)
    ensures HasKey(es[k], p.app, p.task) ==> es[k] == Planned(p, last)
  {
    FirstKeyIs(es, k);
    hide FirstKey;
    var m := Marked(es, es[k].app, es[k].task, epoch);
    assert m == es[k := es[k].(lastRun := epoch)];
    assert forall i :: 0 <= i < |es| ==> SameKey(m[i], es[i]);
    assert forall i, j :: 0 <= i < j < |es| ==> SameKey(m[i], m[j]) == SameKey(es[i], es[j]);
    var i :| 0 <= i < |es| && es[i] == Planned(p, last);
    assert i != k ==> m[i] == es[i] && !SameKey(es[i], es[k]);
    assert m[k] in m && m[i] in m;
  }

  lemma {:induction false} RunKeepsPlan(es: seq<Entry>, run: seq<Event>, start: nat, p: Plan, last: nat)
    requires Inv(es, p, last) && ProperRun(es, run, start, p)
    ensures Inv(Table(es, run), p, LastMark(es, run, p, last))
  {
    if run != [] {
      var front, ev := run[..|run| - 1], run[|run| - 1];
      RunKeepsPlan(es, front, start, p, last);
      var t := Table(es, front);
      hide Inv, Marked, Synced, EntryDue, Planned, Epoch;
      if ev.Poll? {
        var k := FirstDue(t, ev.due, 0);
        if k.Some? {
          MarkKeepsPlan(t, k.value, p, LastMark(es, front, p, last), Epoch(ev.mark));
        }
      } else {
        SyncKeepsPlan(t, ev.app, ev.tasks, p, LastMark(es, front, p, last));
      }
    }
  }

  /** Two launches in order: an interval apart, or in different minutes. */
  predicate Apart(a: DateTime, b: DateTime, p: Plan) {
    if p.interval > 0 then Epoch(a) + p.interval <= Epoch(b) else Epoch(a) / 60 < Epoch(b) / 60
  }

  predicate AllApart(fires: seq<DateTime>, p: Plan) {
    forall i :: 0 <= i < |fires| - 1 ==> Apart(fires[i], fires[i + 1], p)
  }

  /** A cron task is launched only in a minute that all five fields allow. */
  ghost predicate AllAllowed(fires: seq<DateTime>, p: Plan) {
    p.interval == 0 ==> forall i :: 0 <= i < |fires| ==> Cron.TextAllows(p.cron, fires[i])
  }

  /** What the marks say of the launches so far. */
  predicate MarkedAfter(fires: seq<DateTime>, last: nat, now: nat, p: Plan) {
    && last <= now && last + p.interval < U32
    && (fires != [] ==> 0 < Epoch(fires[|fires| - 1]) <= last)
  }

  lemma LaunchIsApart(e: Entry, ev: Event, fires: seq<DateTime>, p: Plan, last: nat, now: nat)
    requires e == Planned(p, last) && ev.Poll? && EntryDue(e, ev.due)
    requires MarkedAfter(fires, last, now, p) && now <= Epoch(ev.due)
    ensures fires != [] ==> Apart(fires[|fires| - 1], ev.due, p)
    ensures p.interval == 0 ==> Cron.Matches(p.cron, Cron.Fields(ev.due))
  {
    hide Epoch, Cron.Matches, Cron.Fields;
  }

  lemma NotZero(t: DateTime)
    requires InRange(t) && t.date.year >= 2000
    ensures 0 < Epoch(t) < U32 && 0 <= Days(t.date) < 0x8000_0000
  {
    RangeFits(t);
    InYear(t.date);
    YearsAscend(1970, t.date.year);
    EpochStart();
    hide Epoch, DaysFromCivil, YearStart;
  }

  lemma EpochStart()
    ensures YearStart(1970) == 0
  {
  }

  lemma AppendFire(fires: seq<DateTime>, t: DateTime, p: Plan)
    requires AllApart(fires, p) && AllAllowed(fires, p)
    requires fires != [] ==> Apart(fires[|fires| - 1], t, p)
    requires p.interval == 0 ==> Cron.TextAllows(p.cron, t)
    ensures AllApart(fires + [t], p) && AllAllowed(fires + [t], p)
  {
    hide Apart, Cron.TextAllows;
  }

  lemma LaunchApart(es: seq<Entry>, ev: Event, fires: seq<DateTime>, p: Plan, last: nat, now: nat)
    requires Inv(es, p, last) && Proper(es, ev, now, p) && Launches(es, ev, p)
    requires MarkedAfter(fires, last, now, p) && AllApart(fires, p) && AllAllowed(fires, p)
    ensures AllApart(fires + [ev.due], p) && AllAllowed(fires + [ev.due], p)
    ensures MarkedAfter(fires + [ev.due], Epoch(ev.mark), Epoch(ev.mark), p)
  {
    hide EntryDue, Epoch, InRange, Inv, AllApart, AllAllowed, Marked, Apart, Cron.Matches, Cron.Fields, Cron.TextAllows;
    var k := FirstDue(es, ev.due, 0).value;
    MarkKeepsPlan(es, k, p, last, 0);
    LaunchIsApart(es[k], ev, fires, p, last, now);
    NotZero(ev.due);
    if p.interval == 0 {
      Cron.MatchAllows(p.cron, ev.due);
    }
    AppendFire(fires, ev.due, p);
  }

  /** Over any run: a task with an interval is launched at most once an interval, one with
      a cron text at most once a minute and only when its five fields agree. */
  lemma {:induction false} LaunchesApart(es: seq<Entry>, run: seq<Event>, start: nat, p: Plan, last: nat)
    requires Inv(es, p, last) && ProperRun(es, run, start, p) && last <= start && last + p.interval < U32
    ensures AllApart(Fires(es, run, p), p) && AllAllowed(Fires(es, run, p), p)
    ensures MarkedAfter(Fires(es, run, p), LastMark(es, run, p, last), Now(run, start), p)
  {
    hide EntryDue, Epoch, InRange, Cron.TextAllows, Table, Inv, AllApart, AllAllowed, Launches;
    if run == [] {
      NoFires(es, p);
    } else {
      var front, ev := run[..|run| - 1], run[|run| - 1];
      LaunchesApart(es, front, start, p, last);
      RunKeepsPlan(es, front, start, p, last);
      var t := Table(es, front);
      if Launches(t, ev, p) {
        assert ev.Poll? by { OnlyPolls(t, ev, p); }
        LaunchApart(t, ev, Fires(es, front, p), p, LastMark(es, front, p, last), Now(front, start));
      } else {
        assert Fires(es, front, p) + [] == Fires(es, front, p);
      }
    }
  }

  lemma OnlyPolls(es: seq<Entry>, ev: Event, p: Plan)
    ensures Launches(es, ev, p) ==> ev.Poll?
  {
  }

  lemma NoFires(es: seq<Entry>, p: Plan)
    ensures AllApart([], p) && AllAllowed([], p)
  {
  }

  /** A cron task is due exactly in the minutes its five fields allow, unless it was marked
      in that very minute. */
  lemma CronDueIff(e: Entry, fs: seq<Cron.Field>, now: DateTime)
    requires e.interval == 0 && Cron.ProperFields(fs) && |fs| == 5 && e.cron == Cron.Text(fs)
    requires -4 <= Days(now.date) < 0x8000_0000
    ensures EntryDue(e, now) <==> Cron.MinuteAllowed(fs, now) && Epoch(now) / 60 != e.lastRun / 60
  {
    hide Epoch, Cron.Matches, Cron.Fields, Cron.Text, Cron.MinuteAllowed;
    Cron.FiveFieldsMatch(fs, now);
  }

  /** A task with an interval is due at once if it never ran. After that the 32-bit
      comparison is the intended one exactly while the sum does not wrap; a wrapped sum
      makes the task due at every poll. */
  lemma IntervalDueIff(e: Entry, now: DateTime)
    requires 0 < e.interval < U32
    ensures e.lastRun == 0 ==> EntryDue(e, now)
    ensures 0 < e.lastRun <= Epoch(now) ==>
              (EntryDue(e, now) <==> e.lastRun + e.interval <= Epoch(now) || e.lastRun + e.interval >= U32)
  {
    assert 0 <= Epoch(now) < U32;
    hide Epoch;
    var sum := e.lastRun + e.interval;
    assert sum < U32 ==> sum % U32 == sum;
    assert U32 <= sum < 2 * U32 ==> sum % U32 == sum - U32;
  }

  lemma {:induction false} UnmarkedWithoutLaunch(es: seq<Entry>, run: seq<Event>, p: Plan, last: nat)
    requires Fires(es, run, p) == []
    ensures LastMark(es, run, p, last) == last
  {
    hide Launches, Epoch, Table;
    if run != [] {
      UnmarkedWithoutLaunch(es, run[..|run| - 1], p, last);
    }
  }

  /** A due interval task stays due, whatever else runs and is synchronised, until it is
      launched. */
  lemma StaysDue(es: seq<Entry>, run: seq<Event>, start: nat, p: Plan, last: nat, t: DateTime, later: DateTime)
    requires Inv(es, p, last) && ProperRun(es, run, start, p) && 0 < p.interval && last + p.interval < U32
    requires EntryDue(Planned(p, last), t) && Epoch(t) <= Epoch(later)
    requires Fires(es, run, p) == []
    ensures Planned(p, last) in Table(es, run) && EntryDue(Planned(p, last), later)
  {
    RunKeepsPlan(es, run, start, p, last);
    UnmarkedWithoutLaunch(es, run, p, last);
    hide Epoch, Table, ProperRun, Fires;
  }
}
