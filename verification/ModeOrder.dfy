/**
 Order of the bring-up stages and recovery after a failure, over whole runs of the mode protocol
 and whatever the PPP task and the status callback interleave.
 */
module ModeOrder {
  import opened ModeProtocol
  import Program = ModeProgram

  datatype Stage =
    | PowerOn | AtTest | WarningsOff | FlowControlSet | ReadImei | ReadImsi | ReadVersion
    | RegisterReports | SignalLevel | ReadSimNumber | StartPpp

  /** The stages of one pass in the order of gsm.c:62-127. */
  const STAGES: seq<Stage> :=
    [PowerOn, AtTest, WarningsOff, FlowControlSet, ReadImei, ReadImsi, ReadVersion,
     RegisterReports, SignalLevel, ReadSimNumber, StartPpp]

  datatype Outcome = Passed(stage: Stage) | Failed(stage: Stage)

  /** The stage whose result the exchange at `site` decides, if it decides one when it succeeds. */
  function Decides(site: Site): seq<Stage> {
    match site
    case Probe(_) => [PowerOn]
    case Ready => [AtTest]
    case Restore => [WarningsOff]
    case Imei => [ReadImei]
    case Imsi => [ReadImsi]
    case Version => [ReadVersion]
    case Registration => [RegisterReports]
    case Signal => [SignalLevel]
    case SimNumber => [ReadSimNumber]
    case _ => []
  }

  /** The stage result, if any, that a step hands back to `vGsmTask`. */
  function Result(t: Step): seq<Outcome> {
    if !t.action.Gsm? then [] else
    match t.action.g
    case GPin(up) => if up && t.pre.gsm.StatusPin? then [Passed(PowerOn)] else []
    case GPowerGiveUp => [Failed(PowerOn)]
    case GMatch => if t.pre.gsm.At? && Decides(t.pre.gsm.site) != [] then [Passed(Decides(t.pre.gsm.site)[0])] else []
    case GNoMemory => ExchangeFailure(t.pre.gsm)
    case GNoTransmit => ExchangeFailure(t.pre.gsm)
    case GTimeout => ExchangeFailure(t.pre.gsm)
    case GFlow => [Passed(FlowControlSet)]
    case GAlloc(granted) => if granted then [] else [Passed(StartPpp)]
    case GRxFirst => [Passed(StartPpp)]
    case _ => []
  }

  function ExchangeFailure(pc: GsmPc): seq<Outcome> {
    if pc.At? && !pc.site.Probe? && Decides(pc.site) != [] then [Failed(Decides(pc.site)[0])] else []
  }

  /** The stage results since the GSM task last passed the top of its loop. */
  function PassLog(run: seq<Step>): seq<Outcome> {
    if run == [] then [] else
    var t := run[|run| - 1];
    if t.action == Gsm(GTop) then [] else PassLog(run[..|run| - 1]) + Result(t)
  }

  /** How many stages the pass has behind it at `pc`; -1 where no stage may follow. */
  function StagesDone(pc: GsmPc): (done: int)
    ensures -1 <= done <= |STAGES|
  {
    match pc
    case StatusPin => 0
    case PowerTry(_) => 0
    case PowerKey(_) => 0
    case TestFlag => 1
    case FlowControl => 3
    case AllocCommand => 10
    case RadioPause => 10
    case ModeFirst => 10
    case RxFirst => 10
    case QueueReset => 11
    case ModeSecond => 11
    case RxSecond => 11
    case SetInit => 11
    case At(site, _) =>
      (match site
       case Probe(_) => 0
       case Ready => 1
       case Warnings => 2
       case Restore => 2
       case Imei => 4
       case Imsi => 5
       case Version => 6
       case Registration => 7
       case Signal => 8
       case SimNumber => 9
       case _ => 10)
    case _ => -1
  }

  function AllPassed(k: nat): (log: seq<Outcome>)
    requires k <= |STAGES|
  {
    seq(k, i requires 0 <= i < k => Passed(STAGES[i]))
  }

  /** The results of a pass that moves from `done` completed stages to `next`. */
  function Progress(done: int, next: int): seq<Outcome> {
    if next != done && 0 <= done < |STAGES| then [Passed(STAGES[done])] else []
  }

  predicate Advances(t: Step) {
    var done, next := StagesDone(t.pre.gsm), StagesDone(t.post.gsm);
    next >= 0 ==> 0 <= done <= next <= done + 1 && Result(t) == Progress(done, next)
  }

  /** Success passes the stage the exchange decides; failure ends the pass or changes nothing. */
  lemma ExchangeOutcome(site: Site)
    ensures var done, next := StagesDone(At(site, Listen)), StagesDone(AfterExchange(site, true));
            && done <= next <= done + 1
            && (next != done <==> Decides(site) != [])
            && (next != done ==> Decides(site)[0] == STAGES[done])
    ensures var next := StagesDone(AfterExchange(site, false));
            if site.Probe? || Decides(site) == [] then next == StagesDone(At(site, Listen)) else next == -1
  {
  }

  /** An exchange step stays at its site or goes where the exchange's outcome sends it. */
  lemma ExchangeMoves(s: State, g: GsmAction)
    requires GsmEnabled(s, g) && s.gsm.At?
    ensures var next := GsmApply(s, g).gsm;
            if g.GOpen? || g.GByte? then next.At? && next.site == s.gsm.site
            else next == AfterExchange(s.gsm.site, g.GMatch?)
    ensures g.GOpen? || g.GByte? || g.GMatch? || g.GNoMemory? || g.GNoTransmit? || g.GTimeout?
  {
  }

  lemma SiteDecidesDone(site: Site, p: Phase, q: Phase)
    ensures StagesDone(At(site, p)) == StagesDone(At(site, q)) >= 0
  {
  }

  lemma ExchangeAdvances(t: Step)
    requires Legal(t) && t.action.Gsm? && t.pre.gsm.At?
    ensures Advances(t)
  {
    var site := t.pre.gsm.site;
    ExchangeMoves(t.pre, t.action.g);
    ExchangeOutcome(site);
    SiteDecidesDone(site, t.pre.gsm.phase, Listen);
    if t.post.gsm.At? && t.post.gsm.site == site {
      SiteDecidesDone(site, t.pre.gsm.phase, t.post.gsm.phase);
    }
  }

  predicate PinStep(g: GsmAction) {
    g.GPin? || g.GPowerGiveUp? || g.GKeyDone? || g.GFlag?
  }

  lemma PinMoves(s: State, g: GsmAction)
    requires GsmEnabled(s, g) && PinStep(g)
    ensures var done, next := StagesDone(s.gsm), StagesDone(GsmApply(s, g).gsm);
            next >= 0 ==> 0 <= done <= next <= done + 1
  {
  }

  lemma OtherMoves(s: State, g: GsmAction)
    requires GsmEnabled(s, g) && !s.gsm.At? && !g.GTop?
    ensures var done, next := StagesDone(s.gsm), StagesDone(GsmApply(s, g).gsm);
            next >= 0 ==> 0 <= done <= next <= done + 1
  {
    if PinStep(g) {
      PinMoves(s, g);
    } else {
      LaterMoves(s, g);
    }
  }

  lemma LaterMoves(s: State, g: GsmAction)
    requires GsmEnabled(s, g) && !s.gsm.At? && !g.GTop? && !PinStep(g)
    ensures var done, next := StagesDone(s.gsm), StagesDone(GsmApply(s, g).gsm);
            next >= 0 ==> 0 <= done <= next <= done + 1
  {
  }

  lemma OtherKeeps(s: State, g: GsmAction)
    requires GsmEnabled(s, g) && !s.gsm.At? && !g.GTop?
    requires 0 <= StagesDone(GsmApply(s, g).gsm) == StagesDone(s.gsm)
    ensures Result(Step(s, Gsm(g), GsmApply(s, g))) == []
  {
  }

  lemma OtherPasses(s: State, g: GsmAction)
    requires GsmEnabled(s, g) && !s.gsm.At? && !g.GTop?
    requires 0 <= StagesDone(s.gsm) == StagesDone(GsmApply(s, g).gsm) - 1
    ensures Result(Step(s, Gsm(g), GsmApply(s, g))) == [Passed(STAGES[StagesDone(s.gsm)])]
  {
  }

  lemma OtherAdvances(t: Step)
    requires Legal(t) && t.action.Gsm? && !t.pre.gsm.At? && t.action != Gsm(GTop)
    ensures Advances(t)
  {
    var done, next := StagesDone(t.pre.gsm), StagesDone(t.post.gsm);
    OtherMoves(t.pre, t.action.g);
    if next >= 0 {
      if next == done {
        OtherKeeps(t.pre, t.action.g);
      } else {
        OtherPasses(t.pre, t.action.g);
      }
    }
  }

  /** One step appends exactly the next stage's success, or leaves the pass. */
  lemma StepAdvances(t: Step)
    requires Legal(t) && t.action != Gsm(GTop)
    ensures Advances(t)
  {
    if t.action.Gsm? {
      if t.pre.gsm.At? {
        ExchangeAdvances(t);
      } else {
        OtherAdvances(t);
      }
    }
  }

  lemma {:induction false} LogFollowsCounter(run: seq<Step>)
    requires Run(run) && StagesDone(Final(run).gsm) >= 0
    ensures PassLog(run) == AllPassed(StagesDone(Final(run).gsm))
  {
    RunPrefix(run);
    var t, shorter := run[|run| - 1], run[..|run| - 1];
    if t.action != Gsm(GTop) {
      StepAdvances(t);
      LogFollowsCounter(shorter);
    }
  }

  lemma OnlyOnlineMarksReady(t: Step)
    requires Legal(t) && !t.pre.init && t.post.init
    ensures t.action == Gsm(GOnline)
  {
  }

  /**
   Bring-up order. Whenever `init` goes from false to true, the results handed back since the
   task last passed the top of its loop are exactly the successes of all eleven stages, in order.
   */
  lemma BringUpOrder(run: seq<Step>, i: nat)
    requires Run(run) && i < |run| && !run[i].pre.init && run[i].post.init
    ensures PassLog(run[..i]) == AllPassed(|STAGES|)
  {
    RunTake(run, i);
    OnlyOnlineMarksReady(run[i]);
    LogFollowsCounter(run[..i]);
  }

  // ---- powering up ----

  /** A look at the module's status pin that starts an attempt of `gsmLLR_PowerUp`. */
  predicate StartsAttempt(t: Step) {
    t.action.Gsm? && t.action.g.GPin? && t.pre.gsm.PowerTry?
  }

  /** The attempts since the GSM task last passed the top of its loop. */
  function Attempts(run: seq<Step>): nat {
    if run == [] then 0 else
    var t := run[|run| - 1];
    if t.action == Gsm(GTop) then 0 else Attempts(run[..|run| - 1]) + if StartsAttempt(t) then 1 else 0
  }

  predicate Powering(pc: GsmPc) {
    pc.StatusPin? || pc.PowerTry? || pc.PowerKey? || (pc.At? && pc.site.Probe?)
  }

  /** The attempts begun, by the program counter. */
  function Begun(pc: GsmPc): nat
    requires Powering(pc)
  {
    match pc
    case StatusPin => 0
    case PowerTry(k) => k
    case PowerKey(k) => k + 1
    case At(Probe(k), _) => k + 1
  }

  lemma ProbeBegins(t: Step)
    requires Legal(t) && t.action.Gsm? && t.pre.gsm.At? && Powering(t.post.gsm)
    ensures Powering(t.pre.gsm) && Begun(t.post.gsm) == Begun(t.pre.gsm)
  {
    ExchangeMoves(t.pre, t.action.g);
  }

  lemma PinBegins(s: State, up: bool)
    requires GsmEnabled(s, GPin(up)) && Powering(GsmApply(s, GPin(up)).gsm)
    ensures Powering(s.gsm)
    ensures Begun(GsmApply(s, GPin(up)).gsm) == Begun(s.gsm) + if s.gsm.PowerTry? then 1 else 0
    ensures s.gsm.PowerTry? ==> Begun(s.gsm) < POWER_ATTEMPTS
  {
  }

  lemma KeyBegins(s: State)
    requires GsmEnabled(s, GKeyDone)
    ensures Powering(s.gsm) && Powering(GsmApply(s, GKeyDone).gsm) && Begun(GsmApply(s, GKeyDone).gsm) == Begun(s.gsm)
  {
  }

  lemma OthersLeavePower(s: State, g: GsmAction)
    requires GsmEnabled(s, g) && !s.gsm.At? && !g.GTop? && !g.GPin? && !g.GKeyDone?
    ensures !Powering(GsmApply(s, g).gsm)
  {
  }

  lemma PowerStep(t: Step)
    requires Legal(t) && t.action.Gsm? && t.action != Gsm(GTop) && Powering(t.post.gsm)
    ensures Powering(t.pre.gsm) && Begun(t.post.gsm) == Begun(t.pre.gsm) + if StartsAttempt(t) then 1 else 0
    ensures StartsAttempt(t) ==> Begun(t.pre.gsm) < POWER_ATTEMPTS
  {
    var g := t.action.g;
    if t.pre.gsm.At? {
      ProbeBegins(t);
    } else if g.GPin? {
      PinBegins(t.pre, g.up);
    } else if g.GKeyDone? {
      KeyBegins(t.pre);
    } else {
      OthersLeavePower(t.pre, g);
    }
  }

  lemma StartKeepsPowering(t: Step)
    requires Legal(t) && StartsAttempt(t)
    ensures Powering(t.post.gsm)
  {
  }

  lemma {:induction false} AttemptsBegun(run: seq<Step>)
    requires Run(run)
    ensures Attempts(run) <= POWER_ATTEMPTS
    ensures Powering(Final(run).gsm) ==> Attempts(run) == Begun(Final(run).gsm)
  {
    if run != [] {
      RunPrefix(run);
      var t, shorter := run[|run| - 1], run[..|run| - 1];
      if t.action != Gsm(GTop) {
        AttemptsBegun(shorter);
        if StartsAttempt(t) {
          StartKeepsPowering(t);
        }
        if t.action.Gsm? && Powering(t.post.gsm) {
          PowerStep(t);
        }
      }
    }
  }

  /** A pass makes at most three attempts to power the module up, and gives up after exactly three. */
  lemma ThreeAttempts(run: seq<Step>)
    requires Run(run)
    ensures Attempts(run) <= 3
    ensures GsmEnabled(Final(run), GPowerGiveUp) ==> Attempts(run) == 3
  {
    AttemptsBegun(run);
  }

  // ---- recovery ----

  /** A stage after power-on is under way: `vGsmTask` is past its test of `notRespond`. */
  predicate InStages(pc: GsmPc) {
    StagesDone(pc) >= 1 && !pc.TestFlag?
  }

  /** The GSM task cannot reach a stage after power-on without first completing a module reset. */
  predicate MustReset(s: State) {
    || s.gsm.LostClearInit? || s.gsm.LostReset? || s.gsm.LostClearFlag? || s.gsm.MarkFailed?
    || (s.notRespond && !InStages(s.gsm))
  }

  lemma StepKeepsMustReset(t: Step)
    requires MustReset(t.pre) && Legal(t) && t.action != Gsm(GLostDone)
    ensures MustReset(t.post)
  {
    if t.pre.gsm.At? {
      var k := t.pre.gsm.site;
      assert k.Probe?;
    }
  }

  lemma {:induction false} MustResetLasts(run: seq<Step>, i: nat, j: nat)
    requires Run(run) && i <= j < |run| && MustReset(run[i].post)
    requires forall k :: i < k < j ==> run[k].action != Gsm(GLostDone)
    ensures i < j ==> MustReset(run[j].pre)
    ensures i == j ==> MustReset(run[j].post)
    decreases j
  {
    if i < j {
      RunTake(run, j);
      assert run[j].pre == run[j - 1].post;
      if i < j - 1 {
        MustResetLasts(run, i, j - 1);
        RunTake(run, j - 1);
        StepKeepsMustReset(run[j - 1]);
      }
    }
  }

  lemma FailureMustReset(t: Step)
    requires Legal(t) && Result(t) != [] && Result(t)[0].Failed?
    ensures MustReset(t.post)
  {
  }

  /**
   Recovery. After any stage failure, no stage beyond power-on is under way again until a module
   reset has completed, in every interleaving.
   */
  lemma Recovery(run: seq<Step>, i: nat, j: nat)
    requires Run(run) && i < j < |run|
    requires Result(run[i]) != [] && Result(run[i])[0].Failed?
    requires InStages(run[j].pre.gsm)
    ensures exists k :: i < k < j && run[k].action == Gsm(GLostDone)
  {
    RunTake(run, i);
    FailureMustReset(run[i]);
    if forall k :: i < k < j ==> run[k].action != Gsm(GLostDone) {
      MustResetLasts(run, i, j);
      assert false;
    }
  }

  /**
   The same in terms of commands: after a command has failed whose failure is not ignored, no command is
   sent, the power-up probes aside, until a module reset has completed.
   */
  lemma FailedCommandResets(run: seq<Step>, i: nat, j: nat, failed: Site, next: Site)
    requires Run(run) && i < j < |run|
    requires Program.Ends(run[i]) && !run[i].action.g.GMatch? && run[i].pre.gsm.site == failed
    requires failed in {Ready, Restore, Imei, Imsi, Version, Registration, Signal, SimNumber}
    requires Program.Begins(run[j], next) && !next.Probe?
    ensures exists k :: i < k < j && run[k].action == Gsm(GLostDone)
  {
    FailureIsResult(run[i], failed);
    SiteInStages(next, run[j].pre.gsm.phase);
    Recovery(run, i, j);
  }

  /** The points at which a stage beyond power-on is under way. */
  lemma InStagesInFull(pc: GsmPc)
    ensures InStages(pc) <==>
            || (pc.At? && !pc.site.Probe?) || pc == FlowControl || pc == AllocCommand || pc == RadioPause
            || pc == ModeFirst || pc == RxFirst || pc == QueueReset || pc == ModeSecond || pc == RxSecond
            || pc == SetInit
  {
  }

  lemma FailureIsResult(t: Step, failed: Site)
    requires Program.Ends(t) && !t.action.g.GMatch? && t.pre.gsm.site == failed
    requires failed in {Ready, Restore, Imei, Imsi, Version, Registration, Signal, SimNumber}
    ensures Result(t) != [] && Result(t)[0].Failed?
  {
  }

  lemma SiteInStages(site: Site, phase: Phase)
    requires !site.Probe?
    ensures InStages(At(site, phase))
  {
  }

  // ---- a failed PPP connect ----

  /** `more` continues `run` to a result of a stage beyond power-on, with no completed reset. */
  predicate SkipsReset(run: seq<Step>, more: seq<Step>) {
    && Run(run + more) && more != []
    && StageResult(more[|more| - 1])
    && forall k :: 0 <= k < |more| ==> more[k].action != Gsm(GLostDone)
  }

  predicate StageResult(t: Step) {
    Result(t) != [] && Result(t)[0].stage != PowerOn
  }

  lemma StageResultInStages(t: Step)
    requires Legal(t) && StageResult(t)
    ensures InStages(t.pre.gsm)
  {
  }

  /** The next GSM action on the shortest way to a stage result. */
  function Drive(pc: GsmPc): GsmAction
    requires InStages(pc) && StagesDone(pc) <= 10
  {
    match pc
    case At(_, Pause) => GOpen
    case At(_, Listen) => GTimeout
    case FlowControl => GFlow
    case AllocCommand => GAlloc(false)
    case RadioPause => GRadioDone
    case ModeFirst => GModeFirst
    case RxFirst => GRxFirst
  }

  function Distance(pc: GsmPc): nat
    requires InStages(pc) && StagesDone(pc) <= 10
  {
    match pc
    case At(site, phase) =>
      (if phase.Pause? then 1 else 0) +
      (match site
       case Warnings => 3
       case Radio => 10
       case Apn => 7
       case Context => 5
       case Dial => 3
       case _ => 1)
    case FlowControl => 1
    case AllocCommand => 1
    case RadioPause => 9
    case ModeFirst => 2
    case RxFirst => 1
  }

  predicate Drives(s: State, next: State)
    requires InStages(s.gsm) && StagesDone(s.gsm) <= 10
  {
    || StageResult(Step(s, Gsm(Drive(s.gsm)), next))
    || (InStages(next.gsm) && StagesDone(next.gsm) <= 10 && Distance(next.gsm) < Distance(s.gsm))
  }

  lemma DriveExchange(s: State)
    requires s.gsm.At? && InStages(s.gsm) && StagesDone(s.gsm) <= 10
    ensures GsmEnabled(s, Drive(s.gsm)) && Drives(s, GsmApply(s, Drive(s.gsm)))
  {
    ExchangeMoves(s, Drive(s.gsm));
  }

  lemma DriveAdvances(s: State)
    requires InStages(s.gsm) && StagesDone(s.gsm) <= 10
    ensures GsmEnabled(s, Drive(s.gsm)) && Drive(s.gsm) != GLostDone
    ensures Drives(s, GsmApply(s, Drive(s.gsm)))
  {
    if s.gsm.At? {
      DriveExchange(s);
    }
  }

  lemma {:induction false} StageFinishes(run: seq<Step>) returns (more: seq<Step>)
    requires Run(run) && InStages(Final(run).gsm) && StagesDone(Final(run).gsm) <= 10
    ensures SkipsReset(run, more)
    decreases Distance(Final(run).gsm)
  {
    var s := Final(run);
    DriveAdvances(s);
    var t := Step(s, Gsm(Drive(s.gsm)), GsmApply(s, Drive(s.gsm)));
    var longer := RunExtend(run, t.action);
    if StageResult(t) {
      more := [t];
    } else {
      var rest := StageFinishes(longer);
      more := [t] + rest;
      assert longer + rest == run + more;
    }
  }

  lemma NoSkipFromReset(run: seq<Step>, more: seq<Step>)
    requires Run(run) && run != [] && MustReset(Final(run))
    ensures !SkipsReset(run, more)
  {
    if SkipsReset(run, more) {
      var whole := run + more;
      var n, last := |run| - 1, |whole| - 1;
      assert forall k :: n < k < last ==> whole[k] == more[k - |run|];
      RunTake(whole, last);
      MustResetLasts(whole, n, last);
      StageResultInStages(whole[last]);
      assert false;
    }
  }

  /**
   A failed PPP connect stores `notRespond` as its last write. The modem is reset before the next
   stage result if and only if that store does not land while a bring-up stage is already under
   way, which it can: the store before it has already let the GSM task start a new pass.
   */
  lemma LateFlag(run: seq<Step>)
    requires Run(run) && run != [] && run[|run| - 1].action == Ppp(PFlag)
    ensures (exists more :: SkipsReset(run, more)) <==> InStages(Final(run).gsm)
  {
    RunPrefix(run);
    if InStages(Final(run).gsm) {
      var more := StageFinishes(run);
    } else {
      forall more ensures !SkipsReset(run, more) {
        NoSkipFromReset(run, more);
      }
    }
  }
}
