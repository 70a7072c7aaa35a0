/** What the keys pressed under a consent dialog decide: the last of Left and Right before
    the first OK, or what was preselected. */
module Consent {
  import opened Bytes
  import opened SerialDevice
  import opened Session

  // ---- What a list of presses means ----

  /** Right stands on Allow and Left on Deny; the last of them counts. */
  function Choice(keys: seq<Key>, preselected: bool): bool {
    if keys == [] then preselected
    else
      var last := keys[|keys| - 1];
      if last == Right then true
      else if last == Left then false
      else Choice(keys[..|keys| - 1], preselected)
  }

  /** The answer given with the first OK, if there is one. */
  function Answer(keys: seq<Key>, preselected: bool): Option<bool> {
    if keys == [] then None
    else
      var front, last := keys[..|keys| - 1], keys[|keys| - 1];
      if Answer(front, preselected).Some? then Answer(front, preselected)
      else if last == Confirm then Some(Choice(front, preselected))
      else None
  }

  lemma {:induction false} AnswerIff(keys: seq<Key>, preselected: bool, answer: bool)
    ensures Answer(keys, preselected) == Some(answer) <==>
            exists k :: 0 <= k < |keys| && keys[k] == Confirm && Confirm !in keys[..k] && Choice(keys[..k], preselected) == answer
  {
    if keys != [] {
      var front := keys[..|keys| - 1];
      AnswerIff(front, preselected, answer);
      forall k | 0 <= k < |keys| - 1
        ensures front[..k] == keys[..k] && front[k] == keys[k]
      {
      }
      AnswerNone(front, preselected);
      if Answer(front, preselected).None? && keys[|keys| - 1] == Confirm {
        assert keys[..|keys| - 1] == front;
      }
      forall k | 0 <= k < |keys| && keys[k] == Confirm && Confirm !in keys[..k]
        ensures k == |keys| - 1 <==> Confirm !in front
      {
        if k < |keys| - 1 {
          assert front[k] == Confirm;
        }
      }
    }
  }

  lemma {:induction false} AnswerNone(keys: seq<Key>, preselected: bool)
    ensures Answer(keys, preselected).None? <==> Confirm !in keys
  {
    if keys != [] {
      AnswerNone(keys[..|keys| - 1], preselected);
      assert keys == keys[..|keys| - 1] + [keys[|keys| - 1]];
    }
  }

  function KeysOf(steps: seq<Step>): seq<Key> {
    if steps == [] then []
    else
      var last := steps[|steps| - 1];
      KeysOf(steps[..|steps| - 1]) + if last.Press? then [last.key] else []
  }

  // ---- The device follows them ----

  /** Where the dialog that is up, or was just answered, stands after these presses. */
  ghost predicate Stands(d: Device, keys: seq<Key>) {
    !d.rx.Ready? &&
    var answer := Answer(keys, d.rx.AwaitSession?);
    && (d.token <==> answer.Some?) && (d.token ==> d.allowed == answer.value)
    && (!d.token ==> d.consent != Idle && d.cursor == if Choice(keys, d.rx.AwaitSession?) then 1 else 0)
  }

  lemma PressStands(d: Device, keys: seq<Key>, key: Key)
    requires Stands(d, keys) && DeviceInv(d)
    ensures var d' := SerialDevice.Press(d, key).dev; Stands(d', keys + [key]) && d'.rx == d.rx
  {
    assert (keys + [key])[..|keys|] == keys;
  }

  /** A dialog comes up: Allow is preselected for a session, Deny for a backup. */
  lemma AskedStands(d: Device, payload: seq<byte>, env: Env)
    requires DeviceInv(d) && d.rx.Ready?
    ensures var d' := Dispatch(d, payload, env).dev; !d'.rx.Ready? ==> Stands(d', [])
  {
    hide UploadBegin, UploadChunk, UploadEnd, DlBegin, DlChunk, DlEnd, PathOf;
  }

  predicate Waiting(step: Step) {
    step.Timer? || step.Press?
  }

  lemma WaitingStands(d: Device, keys: seq<Key>, step: Step)
    requires DeviceInv(d) && Stands(d, keys) && Waiting(step) && Enabled(d, step)
    ensures Stands(Advance(d, step), keys + if step.Press? then [step.key] else [])
    ensures Advance(d, step).rx == d.rx
  {
    if step.Press? {
      PressStands(d, keys, step.key);
    } else {
      assert keys + [] == keys;
    }
  }

  lemma {:induction false} RunAppends(t: Traced, steps: seq<Step>, step: Step)
    ensures Possible(t, steps + [step]) <==> Possible(t, steps) && Enabled(Run(t, steps).dev, step)
    ensures Possible(t, steps + [step]) ==> Run(t, steps + [step]) == Do(Run(t, steps), step)
    decreases |steps|
  {
    hide Do, Enabled;
    if steps == [] {
      assert [] + [step] == [step] && [step][1..] == [];
      assert Enabled(t.dev, step) ==> Possible(Do(t, step), []) && Run(Do(t, step), []) == Do(t, step);
    } else {
      assert (steps + [step])[1..] == steps[1..] + [step];
      if Enabled(t.dev, steps[0]) {
        RunAppends(Do(t, steps[0]), steps[1..], step);
      }
    }
  }

  /** steps[k] is the last command; since then only keys and the timer. */
  predicate Asked(steps: seq<Step>, k: int) {
    0 <= k < |steps| && steps[k].Receive? && forall i :: k < i < |steps| ==> Waiting(steps[i])
  }

  /** Over every run: while a dialog waits for its answer, or the receive task for its turn,
      the keys since the command that asked decide. */
  lemma {:induction false} AnswerStands(t: Traced, steps: seq<Step>) returns (k: int)
    requires DeviceInv(t.dev) && t.dev.rx.Ready? && Possible(t, steps) && !Run(t, steps).dev.rx.Ready?
    ensures Asked(steps, k) && Stands(Run(t, steps).dev, KeysOf(steps[k + 1..]))
    ensures DeviceInv(Run(t, steps).dev)
    decreases |steps|
  {
    hide DeviceInv, Stands, Enabled, Possible, Run, Dispatch, KeysOf, Do;
    NotAtOnce(t, steps);
    var front, last := steps[..|steps| - 1], steps[|steps| - 1];
    assert steps == front + [last];
    RunAppends(t, front, last);
    FrontInv(t, front);
    var u := Run(t, front);
    Moves(u, last);
    if u.dev.rx.Ready? {
      k := |front|;
      assert steps[k + 1..] == [];
      NoKeys();
    } else {
      k := AnswerStands(t, front);
      var keys := KeysOf(front[k + 1..]);
      WaitingStands(u.dev, keys, last);
      KeysMore(steps, k);
    }
  }

  lemma NotAtOnce(t: Traced, steps: seq<Step>)
    requires Possible(t, steps) && t.dev.rx.Ready? && !Run(t, steps).dev.rx.Ready?
    ensures steps != []
  {
  }

  lemma FrontInv(t: Traced, steps: seq<Step>)
    requires DeviceInv(t.dev) && Possible(t, steps)
    ensures DeviceInv(Run(t, steps).dev)
    decreases |steps|
  {
    hide DeviceInv, Do;
    if steps != [] {
      StepInv(t, steps[0]);
      FrontInv(Do(t, steps[0]), steps[1..]);
    }
  }

  lemma StepInv(t: Traced, step: Step)
    requires DeviceInv(t.dev) && Enabled(t.dev, step)
    ensures DeviceInv(Do(t, step).dev) && Do(t, step).dev == Advance(t.dev, step)
  {
    hide DeviceInv;
    AdvanceKeepsInv(t.dev, step);
  }

  lemma NoKeys()
    ensures KeysOf([]) == []
  {
  }

  lemma KeysMore(steps: seq<Step>, k: int)
    requires 0 <= k < |steps| - 1
    ensures var last := steps[|steps| - 1];
            KeysOf(steps[k + 1..]) == KeysOf(steps[..|steps| - 1][k + 1..]) + if last.Press? then [last.key] else []
  {
    assert steps[k + 1..][..|steps| - k - 2] == steps[..|steps| - 1][k + 1..];
  }

  /** Only a command brings a dialog up, and only the wake-up ends the wait for it. */
  lemma Moves(u: Traced, step: Step)
    requires DeviceInv(u.dev) && Enabled(u.dev, step) && !Do(u, step).dev.rx.Ready?
    ensures DeviceInv(Do(u, step).dev) && Do(u, step).dev == Advance(u.dev, step)
    ensures u.dev.rx.Ready? ==> step.Receive? && Stands(Do(u, step).dev, [])
    ensures !u.dev.rx.Ready? ==> Waiting(step)
  {
    hide DeviceInv, Stands, Dispatch;
    StepInv(u, step);
    if step.Receive? {
      AskedStands(u.dev, step.payload, step.env);
    } else if u.dev.rx.Ready? {
      KeepsReady(u.dev, step);
    }
  }

  lemma KeepsReady(d: Device, step: Step)
    requires DeviceInv(d) && d.rx.Ready? && Enabled(d, step) && !step.Receive?
    ensures Advance(d, step).rx.Ready?
  {
    hide Dispatch;
  }

  // ---- Over whole runs from power-on ----

  /** The decision recorded for a dialog is the answer given with its keys. */
  lemma DecisionIsAnswer(files: map<Path, seq<byte>>, steps: seq<Step>, key: Key)
    requires Possible(Traced(Boot(files), []), steps)
    ensures var d := Run(Traced(Boot(files), []), steps).dev;
            forall n, allow :: Recorded(d, Press(key)) == [Decided(n, allow)] ==>
              exists k :: Asked(steps, k) && Answer(KeysOf(steps[k + 1..]) + [key], d.rx.AwaitSession?) == Some(allow)
  {
    var t := Traced(Boot(files), []);
    var d := Run(t, steps).dev;
    if Recorded(d, Press(key)) != [] {
      var k := AnswerStands(t, steps);
      var keys := KeysOf(steps[k + 1..]);
      assert (keys + [key])[..|keys|] == keys;
      hide Run, Possible, KeysOf, Choice;
    }
  }

  /** What a wake-up does is what the keys said: on Deny the request is answered DENIED and
      nothing else happens; on Allow a session is opened, or the backup is applied. */
  lemma WakeObeysAnswer(files: map<Path, seq<byte>>, steps: seq<Step>, env: Env)
    requires Possible(Traced(Boot(files), []), steps) && Enabled(Run(Traced(Boot(files), []), steps).dev, Wake(env))
    ensures var d := Run(Traced(Boot(files), []), steps).dev;
            exists k, allow :: Asked(steps, k) && Answer(KeysOf(steps[k + 1..]), d.rx.AwaitSession?) == Some(allow)
                               && Woken(d, allow, env)
  {
    hide Run, Possible, KeysOf, Answer, Woken;
    var t := Traced(Boot(files), []);
    var d := Run(t, steps).dev;
    var k := AnswerStands(t, steps);
    WokenIs(d, env);
  }

  /** The wire in numbers: 0 OK, 1 denied, 3 input/output error. */
  ghost predicate Woken(d: Device, allow: bool, env: Env) {
    !d.rx.Ready? && d.token &&
    var o, q, log := Resume(d, env), d.rx.seqNo, Recorded(d, Wake(env));
    if !allow then
      o.sent == [[q, 1]] && log == [] && o.dev == d.(token := false, rx := Ready)
    else if d.rx.AwaitSession? then
      o.sent == [[q, 0, 1]] && log == [Opened(d.rx.dialog)]
      && o.dev == d.(token := false, rx := Ready, session := true, timerArmed := true)
    else if env.applyOk then
      o.sent == [[q, 0]] && log == [Applied(d.rx.dialog, d.session)] && !o.dev.session && o.dev.files == d.files
    else
      o.sent == [[q, 3]] && log == [] && o.dev == d.(token := false, rx := Ready)
  }

  lemma WokenIs(d: Device, env: Env)
    requires !d.rx.Ready? && d.token
    ensures Woken(d, d.allowed, env)
  {
    var q := d.rx.seqNo;
    assert Reply(q, DENIED, []) == [q, 1] && Reply(q, OK, [1]) == [q, 0, 1];
    assert Reply(q, OK, []) == [q, 0] && Reply(q, IO, []) == [q, 3];
  }

  /** No grant without an Allow among the keys. */
  lemma GrantNeedsAllow(files: map<Path, seq<byte>>, steps: seq<Step>, env: Env)
    requires Possible(Traced(Boot(files), []), steps) && Enabled(Run(Traced(Boot(files), []), steps).dev, Wake(env))
    requires Recorded(Run(Traced(Boot(files), []), steps).dev, Wake(env)) != []
    ensures var d := Run(Traced(Boot(files), []), steps).dev;
            exists k :: Asked(steps, k) && Answer(KeysOf(steps[k + 1..]), d.rx.AwaitSession?) == Some(true)
  {
    hide Run, Possible, KeysOf, Answer, Recorded, Enabled;
    WakeObeysAnswer(files, steps, env);
  }

  /** A dialog answered with Left and OK ends in DENIED, wherever the run was before. */
  lemma LeftThenConfirmDenies(files: map<Path, seq<byte>>, before: seq<Step>, payload: seq<byte>, e: Env, env: Env)
    requires Possible(Traced(Boot(files), []), before + [Receive(payload, e), Press(Left), Press(Confirm)])
    requires Enabled(Run(Traced(Boot(files), []), before + [Receive(payload, e), Press(Left), Press(Confirm)]).dev, Wake(env))
    ensures var d := Run(Traced(Boot(files), []), before + [Receive(payload, e), Press(Left), Press(Confirm)]).dev;
            Woken(d, false, env)
  {
    hide Run, Possible, KeysOf, Enabled, Woken, Answer, Boot;
    var steps := before + [Receive(payload, e), Press(Left), Press(Confirm)];
    WakeObeysAnswer(files, steps, env);
    var d := Run(Traced(Boot(files), []), steps).dev;
    var k, allow :| Asked(steps, k) && Answer(KeysOf(steps[k + 1..]), d.rx.AwaitSession?) == Some(allow) && Woken(d, allow, env);
    LastAsked(before, payload, e, k);
    LeftConfirm(d.rx.AwaitSession?);
  }

  lemma LastAsked(before: seq<Step>, payload: seq<byte>, e: Env, k: int)
    requires Asked(before + [Receive(payload, e), Press(Left), Press(Confirm)], k)
    ensures (before + [Receive(payload, e), Press(Left), Press(Confirm)])[k + 1..] == [Press(Left), Press(Confirm)]
  {
    var steps := before + [Receive(payload, e), Press(Left), Press(Confirm)];
    assert steps[|before|].Receive? && steps[|before| + 1].Press? && steps[|before| + 2].Press?;
    assert k == |before|;
  }

  lemma LeftConfirm(preselected: bool)
    ensures KeysOf([Press(Left), Press(Confirm)]) == [Left, Confirm]
    ensures Answer([Left, Confirm], preselected) == Some(false)
  {
    assert [Press(Left), Press(Confirm)][..1] == [Press(Left)] && [Press(Left)][..0] == [];
    assert [Left, Confirm][..1] == [Left] && [Left][..0] == [];
    assert KeysOf([Press(Left)]) == [Left];
    assert Answer([Left], preselected) == None;
  }
}
