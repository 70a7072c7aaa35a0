/** Consent and session safety of the device in every interleaving of commands,
    timer expiry and keys. */
module Session {
  import opened Bytes
  import opened SerialDevice

  // ---- Runs with a history ----

  datatype Event =
    | Shown(dialog: nat, backup: bool)
    | Decided(dialog: nat, allow: bool)
    | Opened(dialog: nat)
    | Applied(dialog: nat, inSession: bool)

  datatype Traced = Traced(dev: Device, log: seq<Event>)

  /** The receive task handles a command or wakes up; the timer fires; a key is pressed. */
  datatype Step = Receive(payload: seq<byte>, env: Env) | Wake(wakeEnv: Env) | Timer | Press(key: Key)

  predicate Enabled(d: Device, step: Step) {
    match step
    case Receive(_, _) => d.rx.Ready?
    case Wake(_) => !d.rx.Ready? && d.token
    case Timer => d.timerArmed
    case Press(_) => true
  }

  function Advance(d: Device, step: Step): Device
    requires Enabled(d, step)
  {
    match step
    case Receive(payload, env) => Dispatch(d, payload, env).dev
    case Wake(env) => Resume(d, env).dev
    case Timer => TimerFires(d)
    case Press(key) => SerialDevice.Press(d, key).dev
  }

  /** What a step adds to the history. */
  function Recorded(d: Device, step: Step): seq<Event>
    requires Enabled(d, step)
  {
    match step
    case Receive(_, _) =>
      var d' := Advance(d, step);
      if d'.rx.Ready? then [] else [Shown(d'.rx.dialog, d'.rx.AwaitBackup?)]
    case Wake(env) =>
      if !d.allowed then []
      else if d.rx.AwaitSession? then [Opened(d.rx.dialog)]
      else if env.applyOk then [Applied(d.rx.dialog, d.session)] else []
    case Timer => []
    case Press(key) =>
      if d.consent != Idle && key == Confirm && !d.rx.Ready? then [Decided(d.rx.dialog, d.cursor == 1)] else []
  }

  function Do(t: Traced, step: Step): Traced
    requires Enabled(t.dev, step)
  {
    Traced(Advance(t.dev, step), t.log + Recorded(t.dev, step))
  }

  predicate Possible(t: Traced, steps: seq<Step>)
    decreases |steps|
  {
    steps == [] || (Enabled(t.dev, steps[0]) && Possible(Do(t, steps[0]), steps[1..]))
  }

  function Run(t: Traced, steps: seq<Step>): Traced
    requires Possible(t, steps)
    decreases |steps|
  {
    if steps == [] then t else Run(Do(t, steps[0]), steps[1..])
  }

  // ---- The invariant on device state ----

  ghost predicate DeviceInv(d: Device) {
    && (d.xfer.active <==> d.xfer.fp.Some?)
    && (d.xfer.active ==> d.session)
    && (d.timerArmed <==> d.session)
    && (d.rx.Ready? ==> d.consent == Idle && !d.token)
    && (d.rx.AwaitSession? ==> !d.session && (if d.token then d.consent == Idle else d.consent == Pending))
    && (d.rx.AwaitBackup? ==> if d.token then d.consent == Idle else d.consent == BackupPending)
    && (!d.rx.Ready? ==> d.rx.dialog < d.dialogs)
  }

  lemma DispatchKeepsInv(d: Device, payload: seq<byte>, env: Env)
    requires DeviceInv(d) && d.rx.Ready?
    ensures DeviceInv(Dispatch(d, payload, env).dev)
  {
    hide UploadBegin, UploadChunk, UploadEnd, DlBegin, DlChunk, DlEnd, PathOf;
  }

  lemma AdvanceKeepsInv(d: Device, step: Step)
    requires DeviceInv(d) && Enabled(d, step)
    ensures DeviceInv(Advance(d, step))
  {
    hide Dispatch;
    match step
    case Receive(payload, env) => DispatchKeepsInv(d, payload, env);
    case Wake(env) =>
    case Timer =>
    case Press(key) =>
  }

  // ---- The invariant on the history ----

  ghost predicate At(log: seq<Event>, j: int, e: Event) {
    0 <= j < |log| && log[j] == e
  }

  ghost predicate WasShown(log: seq<Event>, n: nat, backup: bool) {
    exists j :: At(log, j, Shown(n, backup))
  }

  /** The dialog was shown and then decided, both among the first `upto` events. */
  ghost predicate WasDecided(log: seq<Event>, upto: int, n: nat, backup: bool, allow: bool) {
    exists j, k :: j < k < upto && At(log, j, Shown(n, backup)) && At(log, k, Decided(n, allow))
  }

  ghost predicate Undecided(log: seq<Event>, n: nat) {
    forall i :: 0 <= i < |log| && log[i].Decided? ==> log[i].dialog != n
  }

  predicate IsGrant(e: Event) { e.Opened? || e.Applied? }

  ghost predicate Ungranted(log: seq<Event>, n: nat) {
    forall i :: 0 <= i < |log| && IsGrant(log[i]) ==> log[i].dialog != n
  }

  /** Every grant follows the showing and the allowing of its own dialog; no dialog is
      decided twice or granted twice. */
  ghost predicate LogInv(log: seq<Event>, bound: nat) {
    && (forall i :: 0 <= i < |log| ==> log[i].dialog < bound)
    && (forall i :: 0 <= i < |log| && IsGrant(log[i]) ==> WasDecided(log, i, log[i].dialog, log[i].Applied?, true))
    && (forall i, j :: 0 <= i < j < |log| && log[i].Decided? && log[j].Decided? ==> log[i].dialog != log[j].dialog)
    && (forall i, j :: 0 <= i < j < |log| && IsGrant(log[i]) && IsGrant(log[j]) ==> log[i].dialog != log[j].dialog)
  }

  /** The dialog the receive task waits for has been shown, is undecided until the
      semaphore is given, then stands as decided; nothing was granted on it yet. */
  ghost predicate PendingInv(d: Device, log: seq<Event>) {
    !d.rx.Ready? ==>
      && Ungranted(log, d.rx.dialog)
      && (!d.token ==> WasShown(log, d.rx.dialog, d.rx.AwaitBackup?) && Undecided(log, d.rx.dialog))
      && (d.token ==> WasDecided(log, |log|, d.rx.dialog, d.rx.AwaitBackup?, d.allowed))
  }

  ghost predicate HistoryInv(t: Traced) {
    LogInv(t.log, t.dev.dialogs) && PendingInv(t.dev, t.log)
  }

  lemma DecidedExtends(log: seq<Event>, more: seq<Event>)
    ensures forall upto, n, b, a :: WasDecided(log, upto, n, b, a) ==> WasDecided(log + more, upto, n, b, a)
  {
    forall upto, n, b, a | WasDecided(log, upto, n, b, a) ensures WasDecided(log + more, upto, n, b, a) {
      var j, k :| j < k < upto && At(log, j, Shown(n, b)) && At(log, k, Decided(n, a));
      assert At(log + more, j, Shown(n, b)) && At(log + more, k, Decided(n, a));
    }
  }

  lemma AppendKeepsLog(log: seq<Event>, e: Event, bound: nat, bound': nat)
    requires LogInv(log, bound) && bound <= bound' && e.dialog < bound'
    requires e.Decided? ==> Undecided(log, e.dialog)
    requires IsGrant(e) ==> Ungranted(log, e.dialog) && WasDecided(log, |log|, e.dialog, e.Applied?, true)
    ensures LogInv(log + [e], bound')
  {
    DecidedExtends(log, [e]);
    hide WasDecided;
  }

  /** How a command changes the wait state. */
  lemma DispatchWaits(d: Device, payload: seq<byte>, env: Env)
    requires d.rx.Ready?
    ensures var d' := Dispatch(d, payload, env).dev;
            && d'.token == d.token
            && (d'.rx.Ready? ==> d'.dialogs == d.dialogs)
            && (!d'.rx.Ready? ==> d'.rx.dialog == d.dialogs && d'.dialogs == d.dialogs + 1)
  {
    hide UploadBegin, UploadChunk, UploadEnd, DlBegin, DlChunk, DlEnd, PathOf;
  }

  lemma ReceiveKeepsHistory(t: Traced, payload: seq<byte>, env: Env)
    requires DeviceInv(t.dev) && HistoryInv(t) && t.dev.rx.Ready?
    ensures HistoryInv(Do(t, Receive(payload, env)))
  {
    hide Dispatch, WasDecided;
    DispatchWaits(t.dev, payload, env);
    var d' := Do(t, Receive(payload, env)).dev;
    if d'.rx.Ready? {
      assert t.log + [] == t.log;
    } else {
      var e := Shown(d'.rx.dialog, d'.rx.AwaitBackup?);
      AppendKeepsLog(t.log, e, t.dev.dialogs, d'.dialogs);
      assert At(t.log + [e], |t.log|, e);
    }
  }

  lemma WakeKeepsHistory(t: Traced, env: Env)
    requires DeviceInv(t.dev) && HistoryInv(t) && Enabled(t.dev, Wake(env))
    ensures HistoryInv(Do(t, Wake(env)))
  {
    hide WasDecided, Ungranted, Undecided, WasShown, LogInv;
    if Recorded(t.dev, Wake(env)) == [] {
      assert t.log + [] == t.log;
    } else {
      AppendKeepsLog(t.log, Recorded(t.dev, Wake(env))[0], t.dev.dialogs, t.dev.dialogs);
    }
  }

  lemma ConfirmKeepsHistory(t: Traced, d': Device, e: Event)
    requires HistoryInv(t) && !t.dev.rx.Ready? && !t.dev.token && t.dev.rx.dialog < t.dev.dialogs
    requires e == Decided(t.dev.rx.dialog, d'.allowed)
    requires d'.rx == t.dev.rx && d'.token && d'.dialogs == t.dev.dialogs
    ensures HistoryInv(Traced(d', t.log + [e]))
  {
    AppendKeepsLog(t.log, e, t.dev.dialogs, t.dev.dialogs);
    hide LogInv;
    var n, b := t.dev.rx.dialog, t.dev.rx.AwaitBackup?;
    var j :| At(t.log, j, Shown(n, b));
    assert At(t.log + [e], j, Shown(n, b)) && At(t.log + [e], |t.log|, e);
  }

  lemma PressKeepsHistory(t: Traced, key: Key)
    requires DeviceInv(t.dev) && HistoryInv(t)
    ensures HistoryInv(Do(t, Press(key)))
  {
    hide WasDecided, Ungranted, Undecided, WasShown, LogInv;
    if Recorded(t.dev, Press(key)) == [] {
      assert t.log + [] == t.log;
    } else {
      ConfirmKeepsHistory(t, Advance(t.dev, Press(key)), Recorded(t.dev, Press(key))[0]);
    }
  }

  lemma DoKeepsInv(t: Traced, step: Step)
    requires DeviceInv(t.dev) && HistoryInv(t) && Enabled(t.dev, step)
    ensures DeviceInv(Do(t, step).dev) && HistoryInv(Do(t, step))
  {
    AdvanceKeepsInv(t.dev, step);
    match step
    case Receive(payload, env) => ReceiveKeepsHistory(t, payload, env);
    case Wake(env) => WakeKeepsHistory(t, env);
    case Timer => assert t.log + [] == t.log;
    case Press(key) => PressKeepsHistory(t, key);
  }

  lemma {:induction false} RunKeepsInv(t: Traced, steps: seq<Step>)
    requires DeviceInv(t.dev) && HistoryInv(t) && Possible(t, steps)
    ensures DeviceInv(Run(t, steps).dev) && HistoryInv(Run(t, steps))
    decreases |steps|
  {
    hide DeviceInv, HistoryInv, Do;
    if steps != [] {
      DoKeepsInv(t, steps[0]);
      RunKeepsInv(Do(t, steps[0]), steps[1..]);
    }
  }

  // ---- What every run from power-on keeps ----

  /** A transfer is active exactly when its file is open, and only in a session. */
  lemma TransferOnlyInSession(files: map<Path, seq<byte>>, steps: seq<Step>)
    requires Possible(Traced(Boot(files), []), steps)
    ensures var d := Run(Traced(Boot(files), []), steps).dev;
            && (d.xfer.active <==> d.xfer.fp.Some?)
            && (d.xfer.active ==> d.session)
            && (d.session <==> d.timerArmed)
  {
    RunKeepsInv(Traced(Boot(files), []), steps);
  }

  /** A session opens only after the dialog of that very request was shown and allowed,
      and one decision opens at most one session: no semaphore token is left over. */
  lemma SessionNeedsOwnConsent(files: map<Path, seq<byte>>, steps: seq<Step>, i: nat)
    requires Possible(Traced(Boot(files), []), steps)
    requires i < |Run(Traced(Boot(files), []), steps).log|
    requires Run(Traced(Boot(files), []), steps).log[i].Opened?
    ensures var log := Run(Traced(Boot(files), []), steps).log;
            && WasDecided(log, i, log[i].dialog, false, true)
            && (forall j :: 0 <= j < |log| && j != i && IsGrant(log[j]) ==> log[j].dialog != log[i].dialog)
            && !(exists j :: At(log, j, Decided(log[i].dialog, false)))
  {
    RunKeepsInv(Traced(Boot(files), []), steps);
    var log := Run(Traced(Boot(files), []), steps).log;
    OwnConsent(log, Run(Traced(Boot(files), []), steps).dev.dialogs, i);
  }

  lemma OwnConsent(log: seq<Event>, bound: nat, i: nat)
    requires LogInv(log, bound) && i < |log| && log[i].Opened?
    ensures WasDecided(log, i, log[i].dialog, false, true)
    ensures forall j :: 0 <= j < |log| && j != i && IsGrant(log[j]) ==> log[j].dialog != log[i].dialog
    ensures !(exists j :: At(log, j, Decided(log[i].dialog, false)))
  {
    assert IsGrant(log[i]);
    var n := log[i].dialog;
    var h, k :| h < k < i && At(log, h, Shown(n, false)) && At(log, k, Decided(n, true));
    assert forall j :: At(log, j, Decided(n, false)) ==> j == k;
  }

  /** A session begins in no step other than the wake-up that records it. */
  lemma SessionBeginsOnlyOnWake(t: Traced, step: Step)
    requires DeviceInv(t.dev) && Enabled(t.dev, step)
    requires !t.dev.session && Do(t, step).dev.session
    ensures step.Wake? && t.dev.rx.AwaitSession? && Do(t, step).log == t.log + [Opened(t.dev.rx.dialog)]
  {
  }

  /** No step at all changes a file unless it is a command in a session. */
  lemma FilesChangeOnlyInSession(d: Device, step: Step)
    requires DeviceInv(d) && Enabled(d, step)
    requires Advance(d, step).files != d.files || (Advance(d, step).xfer.active && Advance(d, step).xfer != d.xfer)
    ensures d.session && step.Receive?
  {
  }

  // ---- APPLY_BACKUP: the gate is checked before the dialog, not after it ----

  ghost predicate NoneOpened(log: seq<Event>) {
    forall i :: 0 <= i < |log| ==> !log[i].Opened?
  }

  lemma {:induction false} LogGrows(t: Traced, steps: seq<Step>)
    requires Possible(t, steps)
    ensures t.log <= Run(t, steps).log
    decreases |steps|
  {
    hide Enabled, Advance, Recorded;
    if steps != [] {
      LogGrows(Do(t, steps[0]), steps[1..]);
    }
  }

  /** Over any run that starts with no session: as long as no session request was allowed,
      no file on the card has changed and no transfer has begun. */
  lemma {:induction false} NoConsentNoChange(t: Traced, steps: seq<Step>)
    requires DeviceInv(t.dev) && !t.dev.session && Possible(t, steps)
    ensures var u := Run(t, steps);
            NoneOpened(u.log) ==> u.dev.files == t.dev.files && !u.dev.session && !u.dev.xfer.active
    decreases |steps|
  {
    hide Enabled, Advance, Recorded;
    if steps != [] && NoneOpened(Run(t, steps).log) {
      var t' := Do(t, steps[0]);
      AdvanceKeepsInv(t.dev, steps[0]);
      LogGrows(t', steps[1..]);
      if t'.dev.session {
        SessionBeginsOnlyOnWake(t, steps[0]);
        OpenedStays(t.log, t.dev.rx.dialog, Run(t', steps[1..]).log);
      }
      if t'.dev.files != t.dev.files {
        FilesChangeOnlyInSession(t.dev, steps[0]);
      }
      NoConsentNoChange(t', steps[1..]);
    } else if steps == [] {
      ClosedIsInactive(t.dev);
    }
  }

  lemma OpenedStays(log: seq<Event>, dialog: nat, later: seq<Event>)
    requires log + [Opened(dialog)] <= later
    ensures !NoneOpened(later)
  {
    assert later[|log|] == (log + [Opened(dialog)])[|log|];
  }

  lemma ClosedIsInactive(d: Device)
    requires DeviceInv(d) && !d.session
    ensures !d.xfer.active
  {
  }

  /** Nothing that happens while the receive task waits closes the session: the timer
      does not fire, and Back is not pressed between the decision and the wake-up. */
  predicate Undisturbed(steps: seq<Step>, decided: bool) {
    if steps == [] then true
    else
      match steps[0]
      case Timer => false
      case Press(Back) => !decided && Undisturbed(steps[1..], decided)
      case Press(Confirm) => Undisturbed(steps[1..], true)
      case _ => Undisturbed(steps[1..], decided)
  }

  lemma {:induction false} WaitingInSession(t: Traced, steps: seq<Step>)
    requires DeviceInv(t.dev) && t.dev.rx.AwaitBackup? && Possible(t, steps)
    requires forall s | s in steps :: s.Timer? || s.Press?
    ensures var d := Run(t, steps).dev;
            d.rx == t.dev.rx && (d.session <==> t.dev.session && Undisturbed(steps, t.dev.token))
    decreases |steps|
  {
    if steps != [] {
      assert steps[0] in steps;
      var t' := Do(t, steps[0]);
      AdvanceKeepsInv(t.dev, steps[0]);
      WaitingInSession(t', steps[1..]);
    }
  }

  /** A confirmed backup is applied inside the session that requested it if and only if
      nothing closed the session while the dialog was up. */
  lemma BackupInSessionIff(t: Traced, steps: seq<Step>, env: Env)
    requires DeviceInv(t.dev) && t.dev.session && t.dev.rx.AwaitBackup? && !t.dev.token
    requires Possible(t, steps) && forall s | s in steps :: s.Timer? || s.Press?
    requires Run(t, steps).dev.token && Run(t, steps).dev.allowed && env.applyOk
    ensures var u := Run(t, steps);
            && Enabled(u.dev, Wake(env))
            && Recorded(u.dev, Wake(env)) == [Applied(t.dev.rx.dialog, Undisturbed(steps, false))]
  {
    WaitingInSession(t, steps);
  }

  /** The failing case exists: the 30 s timer expires under the dialog, the user then
      allows, and the backup is applied with no session open. */
  lemma BackupOutlivesSession(d: Device, seqNo: byte, env: Env)
    requires DeviceInv(d) && d.rx.Ready? && d.session
    requires env.backupStatus == OK && env.applyOk
    ensures var cmd := [seqNo, APPLY_BACKUP, 0] + [0x2F, 0x73, 0x64, 0];
            var steps := [Receive(cmd, env), Timer, Press(Right), Press(Confirm), Wake(env)];
            Possible(Traced(d, []), steps)
            && Applied(d.dialogs, false) in Run(Traced(d, []), steps).log
  {
    var cmd := [seqNo, APPLY_BACKUP, 0] + [0x2F, 0x73, 0x64, 0];
    var d1 := Dispatch(d, cmd, env).dev;
    BackupDialogOpens(d, seqNo, env);
    var t0 := Traced(d, []);
    var steps := [Receive(cmd, env), Timer, Press(Right), Press(Confirm), Wake(env)];
    hide Dispatch, DeviceInv;
    var t1 := Do(t0, Receive(cmd, env));
    var t2 := Do(t1, Timer);
    var t3 := Do(t2, Press(Right));
    var t4 := Do(t3, Press(Confirm));
    var t5 := Do(t4, Wake(env));
    assert t5.log == t4.log + [Applied(d.dialogs, false)];
    hide Do, Advance, Recorded;
    RunCons(t4, Wake(env), []);
    RunCons(t3, Press(Confirm), [Wake(env)]);
    RunCons(t2, Press(Right), [Press(Confirm), Wake(env)]);
    RunCons(t1, Timer, [Press(Right), Press(Confirm), Wake(env)]);
    RunCons(t0, Receive(cmd, env), [Timer, Press(Right), Press(Confirm), Wake(env)]);
    assert [Wake(env)] + [] == [Wake(env)];
    assert [Press(Confirm)] + [Wake(env)] == [Press(Confirm), Wake(env)];
    assert [Press(Right)] + [Press(Confirm), Wake(env)] == [Press(Right), Press(Confirm), Wake(env)];
    assert [Timer] + [Press(Right), Press(Confirm), Wake(env)] == [Timer, Press(Right), Press(Confirm), Wake(env)];
    assert steps == [Receive(cmd, env)] + [Timer, Press(Right), Press(Confirm), Wake(env)];
  }

  lemma RunCons(t: Traced, step: Step, rest: seq<Step>)
    requires Enabled(t.dev, step) && Possible(Do(t, step), rest)
    ensures Possible(t, [step] + rest) && Run(t, [step] + rest) == Run(Do(t, step), rest)
  {
    hide Do, Enabled;
    assert ([step] + rest)[1..] == rest;
  }

  lemma BackupDialogOpens(d: Device, seqNo: byte, env: Env)
    requires DeviceInv(d) && d.rx.Ready? && d.session && env.backupStatus == OK
    ensures var cmd := [seqNo, APPLY_BACKUP, 0] + [0x2F, 0x73, 0x64, 0];
            Dispatch(d, cmd, env).dev
            == d.(cursor := 0, consent := BackupPending, rx := AwaitBackup(seqNo, d.dialogs), dialogs := d.dialogs + 1)
  {
    var path: Path := [0x2F, 0x73, 0x64];
    var body := [0x2F, 0x73, 0x64, 0];
    CStrTerminated(path, []);
    assert body == path + [0] + [];
    assert ([seqNo, APPLY_BACKUP, 0] + body)[3..] == body;
    assert d.(timerArmed := true) == d;
  }
}
