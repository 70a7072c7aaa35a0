/** The upload of module Upload against the clock: which losses the host's four retries
    make up for before the device's session timer ends the session under them, and which
    uploads can be completed at all. */
module UploadRecovery {
  import opened Bytes
  import opened SerialDevice
  import opened Upload
  import opened UploadAttempts
  import Framing
  import Commands
  import Session

  /** How long the host waits at least for a response that does not come. */
  const WAIT_MS: nat := 10000

  // ---- Uploads with losses, in milliseconds ----

  /** How an attempt can fail. The command is lost and the host waits for nothing, or the
      device hears it `delay` after it was sent, its reply is lost or spoilt, and the host
      gives up `rest` later. */
  datatype Loss = LostCommand(wait: nat) | LostReply(delay: nat, rest: nat)

  /** One command of the upload: first sent `gap` after the device heard the last one, its
      failed attempts, and one that is heard `delay` after it was sent and answered. */
  datatype Round = Round(gap: nat, losses: seq<Loss>, delay: nat)

  function QuietAfter(q: nat, l: Loss): nat {
    match l
    case LostCommand(wait) => q + wait
    case LostReply(delay, rest) => Heard(q + delay) + rest
  }

  function QuietAfterAll(q: nat, losses: seq<Loss>): nat
    decreases |losses|
  {
    if losses == [] then q else QuietAfterAll(QuietAfter(q, losses[0]), losses[1..])
  }

  function LossSteps(q: nat, l: Loss, env: Env): seq<Step> {
    match l
    case LostCommand(wait) => TimerRuns(q, wait) + [LoseCommand(0), TimesOut]
    case LostReply(delay, rest) =>
      TimerRuns(q, delay) + [DeviceTakes(env), LoseReply(0), TimesOut] + TimerRuns(Heard(q + delay), rest)
  }

  function TrySteps(q: nat, losses: seq<Loss>, env: Env): seq<Step>
    decreases |losses|
  {
    if losses == [] then [] else LossSteps(q, losses[0], env) + TrySteps(QuietAfter(q, losses[0]), losses[1..], env)
  }

  function RoundSteps(r: Round, env: Env): seq<Step> {
    TimerRuns(0, r.gap) + TrySteps(r.gap, r.losses, env) + TimerRuns(QuietAfterAll(r.gap, r.losses), r.delay)
    + [DeviceTakes(env), HostTakes]
  }

  function PlanSteps(plan: seq<Round>, env: Env): seq<Step> {
    if plan == [] then [] else RoundSteps(plan[0], env) + PlanSteps(plan[1..], env)
  }

  // ---- What the retries make up for ----

  /** The command of this phase gets through: the index of a chunk fits its 16 bits; no more
      losses than retries, which are 4 for a chunk and 0 otherwise; it is heard before the
      session timer expires; and the reply to chunk 65535 is not lost, for the counter
      wraps behind that chunk. */
  predicate Bearable(p: Phase, r: Round) {
    && (p.Chunk? ==> p.idx < 0x1_0000)
    && |r.losses| <= Retries(p)
    && QuietAfterAll(r.gap, r.losses) + r.delay < SESSION_MS
    && (p == Chunk(0xFFFF) ==> ReplyKept(r.losses))
  }

  predicate ReplyKept(losses: seq<Loss>) {
    forall i :: 0 <= i < |losses| ==> losses[i].LostCommand?
  }

  /** The commands of an upload in order. */
  function PhaseAt(job: Job, k: nat): Phase {
    if k == 0 then Begin else if k <= Chunks(job) then Chunk(k - 1) else if k == Chunks(job) + 1 then End else Done
  }

  predicate WithinBudget(job: Job, plan: seq<Round>) {
    |plan| == Chunks(job) + 2 && forall k :: 0 <= k < |plan| ==> Bearable(PhaseAt(job, k), plan[k])
  }

  // ---- One command ----

  /** Once expired, the timer stays so. */
  lemma {:induction false} StaysExpired(q: nat, losses: seq<Loss>)
    requires q >= SESSION_MS
    ensures QuietAfterAll(q, losses) >= SESSION_MS
    decreases |losses|
  {
    if losses != [] {
      StaysExpired(QuietAfter(q, losses[0]), losses[1..]);
    }
  }

  /** Will the command still get through after this loss? */
  predicate Survives(p: Phase, q: nat, l: Loss) {
    QuietAfter(q, l) < SESSION_MS && (p == Chunk(0xFFFF) ==> l.LostCommand?)
  }

  lemma AttemptFails(job: Job, s: System, q: nat, ok: bool, l: Loss, env: Env)
    requires Awaiting(job, s, q, ok) && Ideal(env)
    ensures Failed(job, s, Play(job, s, LossSteps(q, l, env)), QuietAfter(q, l), ok && Survives(s.host.phase, q, l))
  {
    hide Awaiting, Play, TimerRuns, Ideal;
    match l
    case LostCommand(wait) =>
      TimerKeeps(job, s, q, ok, wait);
      var s1 := Play(job, s, TimerRuns(q, wait));
      CommandLost(job, s1, q + wait, ok && q + wait < SESSION_MS);
      PlayAppend(job, s, TimerRuns(q, wait), [LoseCommand(0), TimesOut]);
    case LostReply(delay, rest) =>
      TimerKeeps(job, s, q, ok, delay);
      var s1 := Play(job, s, TimerRuns(q, delay));
      var steps := [DeviceTakes(env), LoseReply(0), TimesOut];
      if ok && q + delay < SESSION_MS {
        ReplyLost(job, s1, q + delay, env);
      } else {
        AwaitingIsStuck(job, s1, q + delay);
        RefusalLost(job, s1, q + delay, env);
      }
      WaitsOn(job, s, s1, steps, Heard(q + delay), ok && q + delay < SESSION_MS && s.host.phase != Chunk(0xFFFF), rest);
      PlayAppend(job, s, TimerRuns(q, delay), steps);
      PlayAppend(job, s, TimerRuns(q, delay) + steps, TimerRuns(Heard(q + delay), rest));
  }

  lemma AwaitingIsStuck(job: Job, s: System, q: nat)
    requires Awaiting(job, s, q, false)
    ensures Stuck(job, s, q)
  {
    hide Stuck;
  }

  /** The rest of the wait behind a lost reply. */
  lemma WaitsOn(job: Job, s: System, s1: System, steps: seq<Step>, q: nat, ok: bool, rest: nat)
    requires s1.host == s.host && Failed(job, s1, Play(job, s1, steps), q, ok)
    ensures Failed(job, s, Play(job, Play(job, s1, steps), TimerRuns(q, rest)), q + rest, ok && q + rest < SESSION_MS)
  {
    hide Awaiting, Play, TimerRuns;
    var u := Play(job, s1, steps);
    if s.host.attempt == Retries(s.host.phase) {
      PlayRaised(job, u, TimerRuns(q, rest));
    } else {
      TimerKeeps(job, u, q, ok, rest);
    }
  }

  /** After the losses of one command: the host has raised, or is about to make an attempt
      that gets through exactly if none of the losses was fatal. */
  lemma {:induction false} AttemptsFail(job: Job, s: System, q: nat, ok: bool, losses: seq<Loss>, env: Env)
    requires Awaiting(job, s, q, ok) && Ideal(env)
    ensures var u := Play(job, s, TrySteps(q, losses, env));
            if s.host.attempt + |losses| > Retries(s.host.phase) then u.host.failed
            else
              && u.host.phase == s.host.phase
              && Awaiting(job, u, QuietAfterAll(q, losses),
                         ok && QuietAfterAll(q, losses) < SESSION_MS && (s.host.phase == Chunk(0xFFFF) ==> ReplyKept(losses)))
    decreases |losses|
  {
    hide Awaiting, Play, LossSteps, QuietAfter, Ideal;
    AwaitingBounds(job, s, q, ok);
    if losses == [] {
      PlayNothing(job, s);
    } else {
      var l, q1 := losses[0], QuietAfter(q, losses[0]);
      AttemptFails(job, s, q, ok, l, env);
      var u := Play(job, s, LossSteps(q, l, env));
      PlayAppend(job, s, LossSteps(q, l, env), TrySteps(q1, losses[1..], env));
      if s.host.attempt == Retries(s.host.phase) {
        PlayRaised(job, u, TrySteps(q1, losses[1..], env));
      } else {
        AttemptsFail(job, u, q1, ok && Survives(s.host.phase, q, l), losses[1..], env);
        if q1 >= SESSION_MS {
          StaysExpired(q1, losses[1..]);
        }
        FirstReply(losses);
      }
    }
  }

  lemma FirstReply(losses: seq<Loss>)
    requires losses != []
    ensures ReplyKept(losses) <==> losses[0].LostCommand? && ReplyKept(losses[1..])
  {
    assert forall i :: 1 <= i < |losses| ==> losses[i] == losses[1..][i - 1];
  }

  lemma AwaitingBounds(job: Job, s: System, q: nat, ok: bool)
    requires Awaiting(job, s, q, ok)
    ensures s.host.attempt <= Retries(s.host.phase)
    ensures ok ==> q < SESSION_MS
  {
    AwaitingFacts(job, s, q, ok);
  }

  /** A command has just been answered; the next is about to be sent for the first time. */
  ghost predicate Fresh(job: Job, s: System) {
    Smooth(job, s) && s.host.attempt == 0
  }

  /** The host has gone on to this phase, unless its command cannot be packed. */
  ghost predicate Advanced(job: Job, s: System, p: Phase) {
    if Packs(job, p) then Fresh(job, s) && s.host.phase == p else s.host.failed
  }

  lemma FreshIndex(job: Job, s: System)
    requires Fresh(job, s)
    ensures s.host.phase.Chunk? ==> s.host.phase.idx < 0x1_0000
    ensures s.host.attempt == 0 && !s.host.failed
  {
    hide InFlight, PhaseInv, OthersKept, Payload, SdPrefixOk, DevicePath;
  }

  /** One command with its losses takes the upload to the next, or ends it in an exception. */
  lemma RoundEnds(job: Job, s: System, r: Round, env: Env)
    requires Fresh(job, s) && !s.host.phase.Done? && Ideal(env)
    ensures var u := Play(job, s, RoundSteps(r, env));
            if Bearable(s.host.phase, r) then Advanced(job, u, After(job, s.host.phase)) else u.host.failed
  {
    hide Smooth, Play, TimerRuns, TrySteps, Ideal, ReplyKept, After, Advanced;
    FreshIndex(job, s);
    var q := QuietAfterAll(r.gap, r.losses);
    var waits, tries, late := TimerRuns(0, r.gap), TrySteps(r.gap, r.losses, env), TimerRuns(q, r.delay);
    var last := [DeviceTakes(env), HostTakes];
    FreshPends(job, s);
    TimerKeeps(job, s, 0, true, r.gap);
    var s1 := Play(job, s, waits);
    AttemptsFail(job, s1, r.gap, r.gap < SESSION_MS, r.losses, env);
    if r.gap >= SESSION_MS {
      StaysExpired(r.gap, r.losses);
    }
    var s2 := Play(job, s1, tries);
    var ok := q < SESSION_MS && (s.host.phase == Chunk(0xFFFF) ==> ReplyKept(r.losses));
    PlayFour(job, s, waits, tries, late, last);
    if s2.host.failed {
      PlayRaised(job, s2, late);
      PlayRaised(job, s2, last);
      NotRaised(job, s2, q, ok);
    } else {
      TimerKeeps(job, s2, q, ok, r.delay);
      AnswerEnds(job, Play(job, s2, late), q + r.delay, ok && q + r.delay < SESSION_MS, env);
    }
  }

  lemma NotRaised(job: Job, s: System, q: nat, ok: bool)
    ensures s.host.failed ==> !Awaiting(job, s, q, ok)
  {
    hide Inv, Payload;
  }

  lemma FreshPends(job: Job, s: System)
    requires Fresh(job, s) && !s.host.phase.Done?
    ensures Awaiting(job, s, 0, true)
  {
    hide Smooth;
  }

  lemma PlayFour(job: Job, s: System, a: seq<Step>, b: seq<Step>, c: seq<Step>, d: seq<Step>)
    ensures Play(job, s, a + b + c + d) == Play(job, Play(job, Play(job, Play(job, s, a), b), c), d)
  {
    hide Play;
    PlayAppend(job, s, a, b);
    PlayAppend(job, s, a + b, c);
    PlayAppend(job, s, a + b + c, d);
  }

  lemma AnswerEnds(job: Job, s: System, q: nat, ok: bool, env: Env)
    requires Awaiting(job, s, q, ok) && Ideal(env)
    ensures var u := Play(job, s, [DeviceTakes(env), HostTakes]);
            if ok then Advanced(job, u, After(job, s.host.phase)) else u.host.failed
  {
    hide Packs, Smooth, Stuck, Play, Happen, Do, Enabled, After, Ideal;
    if ok {
      RoundAdvances(job, s, env);
      RoundStays(job, s, env);
      PlayTwo(job, s, DeviceTakes(env), HostTakes);
      Happens(job, s, DeviceTakes(env));
      Happens(job, Do(job, s, DeviceTakes(env)), HostTakes);
    } else {
      RefusalRaises(job, s, q, env);
    }
  }

  lemma RoundStays(job: Job, s: System, env: Env)
    requires Smooth(job, s) && !s.host.phase.Done? && Ideal(env)
    ensures Enabled(s, DeviceTakes(env)) && !s.host.failed && !Do(job, s, DeviceTakes(env)).host.failed
  {
    hide Smooth, Do, Enabled, Ideal, Inv, Accepts;
    RoundDevice(job, s, env);
    SmoothFacts(job, s);
  }

  // ---- The whole upload ----

  lemma NextPhase(job: Job, k: nat)
    requires k < Chunks(job) + 2
    ensures !PhaseAt(job, k).Done? && PhaseAt(job, k + 1) == After(job, PhaseAt(job, k))
    ensures k + 1 < Chunks(job) + 2 && !Packs(job, PhaseAt(job, k + 1)) ==>
              PhaseAt(job, k + 1).Chunk? && PhaseAt(job, k + 1).idx >= 0x1_0000
    ensures k + 1 == Chunks(job) + 2 ==> Packs(job, PhaseAt(job, k + 1))
  {
    hide Chunks;
  }

  lemma NotFresh(job: Job, s: System)
    ensures Fresh(job, s) ==> !s.host.failed
  {
    hide Inv, Payload, SdPrefixOk, DevicePath;
  }

  lemma Unbearable(p: Phase, r: Round)
    requires p.Chunk? && p.idx >= 0x1_0000
    ensures !Bearable(p, r)
  {
  }

  predicate WithinFrom(job: Job, plan: seq<Round>, k: nat) {
    forall i :: k <= i < |plan| ==> Bearable(PhaseAt(job, i), plan[i])
  }

  lemma {:induction false} PlanEnds(job: Job, s: System, plan: seq<Round>, k: nat, env: Env)
    requires |plan| == Chunks(job) + 2 && k <= |plan|
    requires Fresh(job, s) && s.host.phase == PhaseAt(job, k) && Ideal(env)
    ensures var u := Play(job, s, PlanSteps(plan[k..], env));
            if WithinFrom(job, plan, k) then u.host.phase.Done? else u.host.failed
    decreases |plan| - k
  {
    hide Fresh, Play, RoundSteps, Bearable, Ideal, After, Chunks, Packs, PhaseAt;
    if k == |plan| {
      LastPhase(job);
      PlayNothing(job, s);
    } else {
      NextPhase(job, k);
      RoundEnds(job, s, plan[k], env);
      var u := Play(job, s, RoundSteps(plan[k], env));
      assert plan[k..][0] == plan[k] && plan[k..][1..] == plan[k + 1..];
      PlayAppend(job, s, RoundSteps(plan[k], env), PlanSteps(plan[k + 1..], env));
      if u.host.failed && Bearable(PhaseAt(job, k), plan[k]) {
        NotFresh(job, u);
        PlayRaised(job, u, PlanSteps(plan[k + 1..], env));
        Unbearable(PhaseAt(job, k + 1), plan[k + 1]);
      } else if Bearable(PhaseAt(job, k), plan[k]) {
        PlanEnds(job, u, plan, k + 1, env);
      } else {
        PlayRaised(job, u, PlanSteps(plan[k + 1..], env));
      }
    }
  }

  /** With a willing card, whatever commands and replies are lost and however long everything
      takes: the upload ends normally, with the file on the card, exactly if the plan of
      losses stays within the budget, and otherwise it ends in an exception. */
  lemma UploadEndsIff(job: Job, s: System, plan: seq<Round>, env: Env)
    requires Initial(job, s) && s.toHost == []
    requires MayBegin(job, s.dev) && s.dev.timerArmed && Ideal(env)
    requires |plan| == Chunks(job) + 2
    ensures var u := Play(job, s, PlanSteps(plan, env));
            && (u.host.phase.Done? <==> WithinBudget(job, plan))
            && (u.host.failed <==> !WithinBudget(job, plan))
            && (WithinBudget(job, plan) ==> DevicePath(job) in u.dev.files && u.dev.files[DevicePath(job)] == job.data)
  {
    hide Smooth, Bearable, Initial, PlanSteps, Run, Possible, Chunks, MayBegin, DevicePath, Play, PhaseAt, Ideal, Packs;
    if Packs(job, Begin) {
      Starts(job, s);
      PhaseZero(job);
      assert plan[0..] == plan;
      PlanEnds(job, s, plan, 0, env);
    } else {
      CannotStart(job, s);
      PlayRaised(job, s, PlanSteps(plan, env));
      TooLong(job, s.dev, plan);
    }
    PlayIsRun(job, s, PlanSteps(plan, env));
    UploadIsExact(job, s, Taken(job, s, PlanSteps(plan, env)));
    DoneNotRaised(job, s, Taken(job, s, PlanSteps(plan, env)));
  }

  lemma TooLong(job: Job, d: Device, plan: seq<Round>)
    requires MayBegin(job, d) && !Packs(job, Begin) && |plan| == Chunks(job) + 2
    ensures !WithinBudget(job, plan)
  {
    hide Packs, Chunks, Bearable;
    BeginPacks(job);
    Unbearable(PhaseAt(job, 0x1_0001), plan[0x1_0001]);
  }

  lemma LastPhase(job: Job)
    ensures PhaseAt(job, Chunks(job) + 2) == Done
  {
    hide Chunks;
  }

  lemma PhaseZero(job: Job)
    ensures PhaseAt(job, 0) == Begin
  {
  }

  lemma DoneNotRaised(job: Job, s: System, steps: seq<Step>)
    requires Initial(job, s) && Possible(job, s, steps)
    ensures var u := Run(job, s, steps); u.host.phase.Done? ==> !u.host.failed
  {
    hide InFlight, PhaseInv, OthersKept, Initial, Run, Possible;
    InitialInv(job, s);
    RunKeepsInv(job, s, steps, s.dev.files);
  }

  // ---- What the budget comes to ----

  /** Waits of the host since the device heard it last; one behind a lost reply counts. */
  function Waits(n: nat, l: Loss): nat {
    if l.LostCommand? then n + 1 else 1
  }

  /** Never a third wait in a row in which the device hears nothing, each of at most w ms,
      no command under way for more than d. */
  predicate Patient(losses: seq<Loss>, n: nat, w: nat, d: nat)
    decreases |losses|
  {
    losses == [] ||
    (var l := losses[0];
     && Waits(n, l) <= 2 && (if l.LostCommand? then l.wait <= w else l.delay <= d && l.rest <= w)
     && Patient(losses[1..], Waits(n, l), w, d))
  }

  /** Two waits in a row are borne, if the link and the host take their time but not more
      than what is left of the 30 seconds. */
  lemma {:induction false} TwoWaitsBorne(q: nat, losses: seq<Loss>, n: nat, g: nat, w: nat, d: nat)
    requires Patient(losses, n, w, d) && n <= 2 && q <= g + n * w && g + 2 * w + d < SESSION_MS
    ensures QuietAfterAll(q, losses) + d < SESSION_MS
    decreases |losses|
  {
    if losses != [] {
      TwoWaitsBorne(QuietAfter(q, losses[0]), losses[1..], Waits(n, losses[0]), g, w, d);
    }
  }

  lemma BearableIfPatient(p: Phase, r: Round, w: nat, d: nat)
    requires (p.Chunk? ==> p.idx < 0x1_0000) && |r.losses| <= Retries(p)
    requires (p == Chunk(0xFFFF) ==> ReplyKept(r.losses))
    requires Patient(r.losses, 0, w, d) && r.delay <= d && r.gap + 2 * w + d < SESSION_MS
    ensures Bearable(p, r)
  {
    TwoWaitsBorne(r.gap, r.losses, 0, r.gap, w, d);
  }

  lemma {:induction false} QuietAppend(q: nat, a: seq<Loss>, b: seq<Loss>)
    ensures QuietAfterAll(q, a + b) == QuietAfterAll(QuietAfterAll(q, a), b)
    decreases |a|
  {
    hide QuietAfter;
    if a == [] {
      assert a + b == b;
    } else {
      assert (a + b)[1..] == a[1..] + b;
      QuietAppend(QuietAfter(q, a[0]), a[1..], b);
    }
  }

  lemma QuietThree(q: nat, x: Loss, y: Loss, z: Loss)
    ensures QuietAfterAll(q, [x, y, z]) == QuietAfter(QuietAfter(QuietAfter(q, x), y), z)
  {
    hide QuietAfter;
    assert [x, y, z][1..] == [y, z] && [y, z][1..] == [z] && [z][1..] == [];
    var q2 := QuietAfter(QuietAfter(q, x), y);
    assert QuietAfterAll(q2, [z]) == QuietAfterAll(QuietAfter(q2, z), []);
    assert QuietAfterAll(QuietAfter(q, x), [y, z]) == QuietAfterAll(q2, [z]);
  }

  /** Three commands lost in a row outlast the session timer, whatever came before. */
  lemma ThreeLostExpire(q: nat, before: seq<Loss>, a: nat, b: nat, c: nat, behind: seq<Loss>)
    requires a >= WAIT_MS && b >= WAIT_MS && c >= WAIT_MS
    ensures QuietAfterAll(q, before + [LostCommand(a), LostCommand(b), LostCommand(c)] + behind) >= SESSION_MS
  {
    var three := [LostCommand(a), LostCommand(b), LostCommand(c)];
    QuietAppend(q, before + three, behind);
    QuietAppend(q, before, three);
    var q1 := QuietAfterAll(q, before);
    QuietThree(q1, LostCommand(a), LostCommand(b), LostCommand(c));
    StaysExpired(QuietAfterAll(q1, three), behind);
  }

  /** A failing run within the host's retries: a chunk's command lost three times in a row.
      The session is over when the fourth attempt arrives. */
  lemma ThreeLostCommandsFail(job: Job, s: System, plan: seq<Round>, env: Env, k: nat,
                              before: seq<Loss>, a: nat, b: nat, c: nat, behind: seq<Loss>)
    requires Initial(job, s) && s.toHost == []
    requires MayBegin(job, s.dev) && s.dev.timerArmed && Ideal(env)
    requires |plan| == Chunks(job) + 2 && k < |plan| && a >= WAIT_MS && b >= WAIT_MS && c >= WAIT_MS
    requires plan[k].losses == before + [LostCommand(a), LostCommand(b), LostCommand(c)] + behind
    ensures Play(job, s, PlanSteps(plan, env)).host.failed
  {
    hide Initial, PlanSteps, Play, MayBegin, Chunks, Ideal, PhaseAt;
    UploadEndsIff(job, s, plan, env);
    ThreeLostExpire(plan[k].gap, before, a, b, c, behind);
    assert !Bearable(PhaseAt(job, k), plan[k]);
  }

  /** A lost reply and two lost commands are a race: the next attempt is heard in time
      exactly if it travels faster than the one whose reply was lost. */
  lemma RaceIff(idx: nat, gap: nat, delay: nat, last: nat)
    requires idx < 0xFFFF && gap + delay < SESSION_MS && delay <= WAIT_MS
    ensures Bearable(Chunk(idx), Round(gap, [LostReply(delay, WAIT_MS - delay), LostCommand(WAIT_MS), LostCommand(WAIT_MS)], last))
            <==> last < delay
  {
    var losses := [LostReply(delay, WAIT_MS - delay), LostCommand(WAIT_MS), LostCommand(WAIT_MS)];
    QuietThree(gap, LostReply(delay, WAIT_MS - delay), LostCommand(WAIT_MS), LostCommand(WAIT_MS));
  }

  /** Beyond the retries of its command any loss ends the upload in an exception. */
  lemma PastRetriesFails(job: Job, s: System, plan: seq<Round>, env: Env, k: nat)
    requires Initial(job, s) && s.toHost == []
    requires MayBegin(job, s.dev) && s.dev.timerArmed && Ideal(env)
    requires |plan| == Chunks(job) + 2 && k < |plan| && |plan[k].losses| > Retries(PhaseAt(job, k))
    ensures Play(job, s, PlanSteps(plan, env)).host.failed
  {
    hide Initial, PlanSteps, Play, MayBegin, Chunks, Ideal, PhaseAt;
    UploadEndsIff(job, s, plan, env);
    assert !Bearable(PhaseAt(job, k), plan[k]);
  }

  /** The reply to chunk 65535 cannot be lost: the next attempt is answered with an error
      and the host gives up. */
  lemma LastReplyFails(job: Job, s: System, plan: seq<Round>, env: Env, i: nat)
    requires Initial(job, s) && s.toHost == [] && Chunks(job) == 0x1_0000
    requires MayBegin(job, s.dev) && s.dev.timerArmed && Ideal(env)
    requires |plan| == Chunks(job) + 2 && i < |plan[0x1_0000].losses| && plan[0x1_0000].losses[i].LostReply?
    ensures Play(job, s, PlanSteps(plan, env)).host.failed
  {
    hide Initial, PlanSteps, Play, MayBegin, Chunks, Ideal;
    UploadEndsIff(job, s, plan, env);
    assert PhaseAt(job, 0x1_0000) == Chunk(0xFFFF);
    assert !Bearable(PhaseAt(job, 0x1_0000), plan[0x1_0000]);
  }

  // ---- Which uploads can be completed at all ----

  function NoLosses(job: Job): (plan: seq<Round>)
    ensures Chunks(job) <= 0x1_0000 ==> WithinBudget(job, plan)
  {
    seq(Chunks(job) + 2, _ => Round(0, [], 0))
  }

  /** The begin command cannot succeed. */
  ghost predicate Barred(job: Job, s: System, files: map<Path, seq<byte>>) {
    && Inv(job, s, files) && s.host.phase.Begin? && !MayBegin(job, s.dev)
    && forall i :: 0 <= i < |s.toHost| ==> !IsOk(s.toHost[i])
  }

  lemma BarredStep(job: Job, s: System, step: Step, files: map<Path, seq<byte>>)
    requires Barred(job, s, files) && Enabled(s, step)
    ensures Barred(job, Do(job, s, step), files)
  {
    hide Inv, MayBegin, IsOk, Do;
    StepKeepsInv(job, s, step, files);
    match step
    case DeviceTakes(env) => BarredAnswer(job, s, env, files);
    case HostTakes => BarredReply(job, s);
    case TimesOut => BarredTimeout(job, s, files);
    case LoseCommand(_) => BarredLoss(job, s, step);
    case LoseReply(_) => BarredLoss(job, s, step);
    case TimerExpires => BarredEvent(job, s, step);
    case KeyPressed(_) => BarredEvent(job, s, step);
  }

  lemma BarredAnswer(job: Job, s: System, env: Env, files: map<Path, seq<byte>>)
    requires Inv(job, s, files) && Enabled(s, DeviceTakes(env)) && s.host.phase.Begin? && !MayBegin(job, s.dev)
    requires forall i :: 0 <= i < |s.toHost| ==> !IsOk(s.toHost[i])
    ensures var u := Do(job, s, DeviceTakes(env));
            && u.host == s.host && !MayBegin(job, u.dev) && forall i :: 0 <= i < |u.toHost| ==> !IsOk(u.toHost[i])
  {
    hide Dispatch, Payload, SdPrefixOk, DevicePath, HostInv, PhaseInv, OthersKept, SameOthers, Ours;
    var c := s.toDev[0];
    assert IsAttempt(job, s.host, c);
    PayloadFits(job, Begin, s.host.xferId, c[0]);
    if |c| <= Framing.DEVICE_MAX {
      DeviceBegins(job, s.dev, s.host.xferId, c[0], env);
      SessionKept(job, Begin, s.host.xferId, c[0], s.dev, env);
      Commands.OnCardIff(DevicePath(job));
    }
  }

  lemma BarredReply(job: Job, s: System)
    requires s.toHost != [] && s.host.phase.Begin? && !MayBegin(job, s.dev)
    requires forall i :: 0 <= i < |s.toHost| ==> !IsOk(s.toHost[i])
    ensures var u := Do(job, s, HostTakes);
            && u.host.phase.Begin? && u.dev == s.dev && forall i :: 0 <= i < |u.toHost| ==> !IsOk(u.toHost[i])
  {
    hide HostReceives, MayBegin;
    assert !IsOk(s.toHost[0]);
    Skipped(job, s.host, s.toHost[0]);
  }

  lemma BarredTimeout(job: Job, s: System, files: map<Path, seq<byte>>)
    requires Inv(job, s, files) && s.host.phase.Begin?
    ensures var u := Do(job, s, TimesOut); u.host.phase.Begin? && u.dev == s.dev && u.toHost == s.toHost
  {
    hide Inv, Send;
  }

  lemma BarredLoss(job: Job, s: System, step: Step)
    requires Enabled(s, step) && (step.LoseCommand? || step.LoseReply?)
    requires forall i :: 0 <= i < |s.toHost| ==> !IsOk(s.toHost[i])
    ensures var u := Do(job, s, step);
            && u.host == s.host && u.dev == s.dev && forall i :: 0 <= i < |u.toHost| ==> !IsOk(u.toHost[i])
  {
    hide IsOk;
    if step.LoseReply? {
      SomeOkShrinks(s.toHost, step.at);
    }
  }

  lemma BarredEvent(job: Job, s: System, step: Step)
    requires Enabled(s, step) && (step.TimerExpires? || step.KeyPressed?) && !MayBegin(job, s.dev)
    requires forall i :: 0 <= i < |s.toHost| ==> !IsOk(s.toHost[i])
    ensures var u := Do(job, s, step);
            && u.host == s.host && !MayBegin(job, u.dev) && forall i :: 0 <= i < |u.toHost| ==> !IsOk(u.toHost[i])
  {
    hide SdPrefixOk, DevicePath, Dispatch, HostReceives, HostTimesOut;
  }

  lemma {:induction false} BarredRun(job: Job, s: System, steps: seq<Step>, files: map<Path, seq<byte>>)
    requires Barred(job, s, files) && Possible(job, s, steps)
    ensures !Run(job, s, steps).host.phase.Done?
    decreases |steps|
  {
    hide Do, Enabled, Inv, MayBegin, IsOk;
    if steps != [] {
      BarredStep(job, s, steps[0], files);
      BarredRun(job, Do(job, s, steps[0]), steps[1..], files);
    }
  }

  lemma InitialBarred(job: Job, s: System)
    requires Initial(job, s) && !MayBegin(job, s.dev)
    ensures Barred(job, s, s.dev.files)
  {
    hide Inv, MayBegin;
    InitialInv(job, s);
  }

  /** An upload to a willing card can run to its end if and only if the device can take it
      and the file has at most 65536 chunks. */
  lemma UploadCompletesIff(job: Job, s: System)
    requires Initial(job, s) && s.toHost == [] && Session.DeviceInv(s.dev)
    ensures MayBegin(job, s.dev) && Chunks(job) <= 0x1_0000 <==>
            exists steps :: Possible(job, s, steps) && Run(job, s, steps).host.phase.Done?
  {
    hide Initial, MayBegin, PlanSteps, Chunks, Run, Possible, Play, Taken, WithinBudget;
    if MayBegin(job, s.dev) && Chunks(job) <= 0x1_0000 {
      var env := Env(false, true, CHUNK_SIZE, true, CHUNK_SIZE, OK, true, OK);
      ArmedInSession(job, s.dev);
      BudgetLength(job, NoLosses(job));
      UploadEndsIff(job, s, NoLosses(job), env);
      PlayIsRun(job, s, PlanSteps(NoLosses(job), env));
    }
    forall steps | Possible(job, s, steps) && Run(job, s, steps).host.phase.Done?
      ensures MayBegin(job, s.dev) && Chunks(job) <= 0x1_0000
    {
      UploadIsExact(job, s, steps);
      if !MayBegin(job, s.dev) {
        InitialBarred(job, s);
        BarredRun(job, s, steps, s.dev.files);
      }
    }
  }

  lemma ArmedInSession(job: Job, d: Device)
    requires Session.DeviceInv(d) && MayBegin(job, d)
    ensures d.timerArmed
  {
  }

  lemma BudgetLength(job: Job, plan: seq<Round>)
    requires WithinBudget(job, plan)
    ensures |plan| == Chunks(job) + 2
  {
  }
}
