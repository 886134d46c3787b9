/** The button gate: one press executes one state. The main thread, statement by statement,
    interleaved with the button callback, which runs atomically. */
module ButtonGate {

  /** Where the main thread stands: at the top of its loop, blocked at READY, executing a
      state, or inside the GNSS session of one. */
  datatype Pc =
    | LoopTop | Ready | Executing
    | BeforeReset | BeforeArm | Collecting | BeforeDisarm | BeforeFlush
    | WaitFailed | Halted

  /** The semaphore count, the waiting flag, and what happened so far: presses accepted at
      READY, accepted in a session, discarded, and states executed. */
  datatype Gate = Gate(
    pc: Pc, stepRequested: nat, waiting: nat,
    readyPresses: nat, sessionPresses: nat, discarded: nat, executed: nat, sessions: nat)

  /** An input event as the callback sees it. */
  datatype Input = Input(sync: bool, isKey: bool, ours: bool, down: bool)

  datatype Action =
    | ArmReady | TakeStep | WaitFails | ClearAndStop
    | EnterSession | ResetBefore | ArmSession | Poll(timedOut: bool) | QueueFails | Disarm | Flush
    | FinishState
    | Button(input: Input)

  function Init(): Gate {
    Gate(LoopTop, 0, 0, 0, 0, 0, 0, 0)
  }

  /** A binary semaphore: a give that finds it given is lost. */
  function Give(count: nat): nat {
    if count < 1 then count + 1 else count
  }

  predicate IsPress(i: Input) {
    i.sync && i.isKey && i.ours && i.down
  }

  function OnButton(g: Gate, i: Input): Gate {
    if !IsPress(i) then g
    else if g.waiting == 1 then
      var g' := g.(waiting := 0, stepRequested := Give(g.stepRequested));
      if g.pc in {Ready, WaitFailed} then g'.(readyPresses := g.readyPresses + 1)
      else g'.(sessionPresses := g.sessionPresses + 1)
    else g.(discarded := g.discarded + 1)
  }

  predicate Enabled(g: Gate, a: Action) {
    match a
    case ArmReady => g.pc == LoopTop
    case TakeStep => g.pc == Ready && g.stepRequested > 0
    case WaitFails => g.pc == Ready && g.stepRequested == 0
    case ClearAndStop => g.pc == WaitFailed
    case EnterSession => g.pc == Executing
    case ResetBefore => g.pc == BeforeReset
    case ArmSession => g.pc == BeforeArm
    case Poll(_) => g.pc == Collecting
    case QueueFails => g.pc == Collecting
    case Disarm => g.pc == BeforeDisarm
    case Flush => g.pc == BeforeFlush
    case FinishState => g.pc == Executing
    case Button(_) => true
  }

  function Effect(g: Gate, a: Action): Gate
    requires Enabled(g, a)
  {
    match a
    case ArmReady => g.(pc := Ready, waiting := 1)
    case TakeStep => g.(pc := Executing, stepRequested := g.stepRequested - 1, executed := g.executed + 1)
    case WaitFails => g.(pc := WaitFailed)
    case ClearAndStop => g.(pc := Halted, waiting := 0)
    case EnterSession => g.(pc := BeforeReset)
    case ResetBefore => g.(pc := BeforeArm, stepRequested := 0)
    case ArmSession => g.(pc := Collecting, waiting := 1, sessions := g.sessions + 1)
    case Poll(timedOut) =>
      var pressed := g.stepRequested > 0;
      var g' := if pressed then g.(stepRequested := g.stepRequested - 1) else g;
      if pressed || timedOut then g'.(pc := BeforeDisarm) else g'
    case QueueFails => g.(pc := BeforeDisarm)
    case Disarm => g.(pc := BeforeFlush, waiting := 0)
    case Flush => g.(pc := Executing, stepRequested := 0)
    case FinishState => g.(pc := LoopTop)
    case Button(i) => OnButton(g, i)
  }

  /** An action that is not enabled does not happen. */
  function Next(g: Gate, a: Action): Gate {
    if Enabled(g, a) then Effect(g, a) else g
  }

  function Run(acts: seq<Action>): Gate {
    if acts == [] then Init() else Next(Run(acts[..|acts| - 1]), acts[|acts| - 1])
  }

  /** A press accepted at READY that has not been consumed. */
  function Pending(g: Gate): nat {
    if g.pc in {Ready, WaitFailed, Halted} then g.stepRequested else 0
  }

  /** At most one of a pending step and an armed gate. Outside READY and a session there is
      neither, and every state executed was paid for by one press accepted at READY. */
  ghost predicate GateInv(g: Gate) {
    && g.stepRequested + g.waiting <= 1
    && (g.pc in {LoopTop, Executing, BeforeReset, BeforeArm} ==> g.stepRequested + g.waiting == 0)
    && (g.pc in {BeforeFlush, Halted} ==> g.waiting == 0)
    && (g.pc in {Ready, WaitFailed} ==> g.stepRequested + g.waiting == 1)
    && g.readyPresses == g.executed + Pending(g)
    && g.sessionPresses + (if g.pc in {Collecting, BeforeDisarm} then g.waiting else 0) <= g.sessions
  }

  lemma StepKeeps(g: Gate, a: Action)
    requires GateInv(g) && Enabled(g, a)
    ensures GateInv(Effect(g, a))
  {
    match a
    case Button(i) =>
      if IsPress(i) && g.waiting == 1 {
        assert g.pc !in {LoopTop, Executing, BeforeReset, BeforeArm, BeforeFlush, Halted};
        assert g.pc.Ready? || g.pc.WaitFailed? || g.pc.Collecting? || g.pc.BeforeDisarm?;
      }
    case _ =>
  }

  lemma {:induction false} RunKeeps(acts: seq<Action>)
    ensures GateInv(Run(acts))
  {
    if acts == [] {
    } else {
      var g, a := Run(acts[..|acts| - 1]), acts[|acts| - 1];
      RunKeeps(acts[..|acts| - 1]);
      if Enabled(g, a) {
        StepKeeps(g, a);
      }
    }
  }

  /** How many presses a run has. */
  function Presses(acts: seq<Action>): nat {
    if acts == [] then 0
    else
      var a := acts[|acts| - 1];
      Presses(acts[..|acts| - 1]) + (if a.Button? && IsPress(a.input) then 1 else 0)
  }

  function Accounted(g: Gate): nat {
    g.readyPresses + g.sessionPresses + g.discarded
  }

  lemma AccountedStep(g: Gate, a: Action)
    ensures Accounted(Next(g, a)) == Accounted(g) + (if a.Button? && IsPress(a.input) then 1 else 0)
  {
  }

  lemma {:induction false} EachPressOnce(acts: seq<Action>)
    ensures Presses(acts) == Accounted(Run(acts))
  {
    if acts == [] {
    } else {
      EachPressOnce(acts[..|acts| - 1]);
      AccountedStep(Run(acts[..|acts| - 1]), acts[|acts| - 1]);
    }
  }

  /** Every press is accounted for exactly once: one for each executed state, at most one still
      pending at READY, at most one for each session, and the rest discarded. */
  lemma PressAccounting(acts: seq<Action>)
    ensures var g := Run(acts);
      && Presses(acts) == g.executed + Pending(g) + g.sessionPresses + g.discarded
      && g.stepRequested + g.waiting <= 1 && Pending(g) <= 1 && g.sessionPresses <= g.sessions
  {
    RunKeeps(acts);
    EachPressOnce(acts);
  }

  /** What a press does: it is accepted exactly when the gate is armed, which it can only be at
      READY and in a session; otherwise nothing changes but the count of discarded ones. */
  ghost predicate Gated(g: Gate, g': Gate) {
    && (g.waiting == 0 ==> g' == g.(discarded := g.discarded + 1))
    && (g.waiting == 1 ==> g.pc in {Ready, WaitFailed, Collecting, BeforeDisarm} && g'.stepRequested == 1 && g'.waiting == 0)
  }

  lemma PressGated(g: Gate, i: Input)
    requires GateInv(g) && IsPress(i)
    ensures Gated(g, OnButton(g, i))
  {
    assert g.pc.LoopTop? || g.pc.Ready? || g.pc.Executing? || g.pc.BeforeReset? || g.pc.BeforeArm?
        || g.pc.Collecting? || g.pc.BeforeDisarm? || g.pc.BeforeFlush? || g.pc.WaitFailed? || g.pc.Halted?;
  }

  lemma BusyPressDiscarded(acts: seq<Action>, i: Input)
    requires IsPress(i)
    ensures Gated(Run(acts), OnButton(Run(acts), i))
  {
    RunKeeps(acts);
    PressGated(Run(acts), i);
  }

  /** A turn of the session loop ends the session exactly when a press is pending or the
      deadline has passed, and consumes the press. */
  lemma PollEndsExactly(acts: seq<Action>, timedOut: bool)
    requires Run(acts).pc == Collecting
    ensures var g := Run(acts); var g' := Effect(g, Poll(timedOut));
      && (g'.pc == BeforeDisarm <==> g.stepRequested == 1 || timedOut)
      && (g'.pc == Collecting <==> g.stepRequested == 0 && !timedOut)
      && g'.stepRequested == 0 && g'.waiting == g.waiting
      && Effect(g, QueueFails) == g.(pc := BeforeDisarm)
  {
    RunKeeps(acts);
  }

  /** Only a press of the configured key counts: a release, another key or an unfinished
      report changes nothing. */
  lemma OnlyPressesCount(g: Gate, i: Input)
    requires GateInv(g)
    ensures OnButton(g, i) != g <==> i == Input(true, true, true, true)
  {
    if IsPress(i) {
      PressGated(g, i);
    }
  }

  /** A press at READY executes the state that is waiting. */
  lemma ReadyPressExecutes(acts: seq<Action>)
    requires Run(acts).pc == Ready && Run(acts).waiting == 1
    ensures var g := Run(acts + [Button(Input(true, true, true, true)), TakeStep]);
      g.pc == Executing && g.executed == Run(acts).executed + 1
  {
    var press := Button(Input(true, true, true, true));
    RunKeeps(acts);
    var more := acts + [press];
    assert more[..|more| - 1] == acts;
    var all := acts + [press, TakeStep];
    assert all[..|all| - 1] == more;
  }

  lemma RunMore(acts: seq<Action>, a: Action)
    ensures Run(acts + [a]) == Next(Run(acts), a)
  {
    assert (acts + [a])[..|acts|] == acts;
  }

  /** A state that opens a session arms the gate anew: no earlier press is pending. */
  lemma SessionOpens(acts: seq<Action>)
    requires Run(acts).pc == Executing
    ensures var g := Run(acts + [EnterSession] + [ResetBefore] + [ArmSession]);
      g.pc == Collecting && g.waiting == 1 && g.stepRequested == 0 && g.sessions == Run(acts).sessions + 1
  {
    RunMore(acts, EnterSession);
    RunMore(acts + [EnterSession], ResetBefore);
    RunMore(acts + [EnterSession] + [ResetBefore], ArmSession);
  }

  /** A press in a session closes it and brings the thread back to READY, with the gate armed
      again, nothing pending and no state executed in between. */
  lemma SessionCloses(acts: seq<Action>)
    requires Run(acts).pc == Collecting && Run(acts).stepRequested == 1
    ensures var g := Run(acts + [Poll(false)] + [Disarm] + [Flush] + [FinishState] + [ArmReady]);
      g.pc == Ready && g.waiting == 1 && g.stepRequested == 0 && g.executed == Run(acts).executed
  {
    RunKeeps(acts);
    RunMore(acts, Poll(false));
    RunMore(acts + [Poll(false)], Disarm);
    RunMore(acts + [Poll(false)] + [Disarm], Flush);
    RunMore(acts + [Poll(false)] + [Disarm] + [Flush], FinishState);
    RunMore(acts + [Poll(false)] + [Disarm] + [Flush] + [FinishState], ArmReady);
  }

  lemma RunAppend(acts: seq<Action>, more: seq<Action>)
    requires more != []
    ensures var k := |more| - 1; Run(acts + more) == Next(Run(acts + more[..k]), more[k])
  {
    var k := |more| - 1;
    RunMore(acts + more[..k], more[k]);
    LastApart(acts, more);
  }

  lemma LastApart(acts: seq<Action>, more: seq<Action>)
    requires more != []
    ensures var k := |more| - 1; acts + more[..k] + [more[k]] == acts + more
  {
  }

  lemma HaltedStays(g: Gate, a: Action)
    requires g.pc == Halted
    ensures Next(g, a).pc == Halted && Next(g, a).executed == g.executed
  {
  }

  /** Once the wait for a press has failed the application stops for good. */
  lemma {:induction false} HaltedForever(acts: seq<Action>, more: seq<Action>)
    requires Run(acts).pc == Halted
    ensures Run(acts + more).pc == Halted && Run(acts + more).executed == Run(acts).executed
  {
    if more == [] {
      assert acts + more == acts;
    } else {
      var k := |more| - 1;
      HaltedForever(acts, more[..k]);
      RunAppend(acts, more);
      HaltedStays(Run(acts + more[..k]), more[k]);
    }
  }

  predicate NoPress(acts: seq<Action>) {
    forall a :: a in acts ==> a.Button? ==> !IsPress(a.input)
  }

  lemma GrowStep(g: Gate, a: Action)
    requires Enabled(g, a)
    ensures var g' := Effect(g, a);
      g.executed <= g'.executed && g.sessionPresses <= g'.sessionPresses && g.discarded <= g'.discarded
  {
    // Each counter is either kept or raised; one case for each action.
    match a case _ =>
  }

  lemma {:induction false} OnlyGrow(pre: seq<Action>, more: seq<Action>)
    ensures var g, g' := Run(pre), Run(pre + more);
      g.executed <= g'.executed && g.sessionPresses <= g'.sessionPresses && g.discarded <= g'.discarded
    ensures NoPress(more) ==> Presses(pre) == Presses(pre + more)
  {
    if more == [] {
      assert pre + more == pre;
    } else {
      var k := |more| - 1;
      var mid := pre + more[..k];
      OnlyGrow(pre, more[..k]);
      assert pre + more == mid + [more[k]];
      assert (mid + [more[k]])[..|mid|] == mid;
      if Enabled(Run(mid), more[k]) {
        GrowStep(Run(mid), more[k]);
      }
      assert more[k] in more && forall a :: a in more[..k] ==> a in more;
    }
  }

  /** A press that ends a session, or races its deadline, never also starts the next state:
      from anywhere in a state or its session, whatever was pressed so far, no further state
      is executed until a further press comes. */
  lemma SessionPressNeverCarriesOver(pre: seq<Action>, more: seq<Action>)
    requires Run(pre).pc !in {Ready, WaitFailed, Halted}
    requires NoPress(more)
    ensures Run(pre + more).executed == Run(pre).executed
  {
    PressAccounting(pre);
    PressAccounting(pre + more);
    OnlyGrow(pre, more);
  }
}
