/**
 The task bodies of gsm.c, gsmLLR.c and gsmPPP.c in their own statement order, over shared fields
 they update in place. Each shared access is appended to a record as a step, and `Valid()` says that
 the record is a run of the mode protocol ending in the present field values, so everything proved
 about runs holds of this code.
 */
module ModeTasks {
  import opened ModeProtocol
  import opened ModeSafety

  class Firmware {
    var init: bool
    var notRespond: bool
    var pppModeEnable: bool
    var receiveState: bool
    var pppState: PppState
    var ppp: PppPc  // where the PPP task will continue when it is scheduled
    var subscribers: nat
    ghost var gsm: GsmPc
    ghost var run: seq<Step>
    ghost var last: State  // the state after the last recorded step

    ghost function Now(): State
      reads this
    {
      State(init, notRespond, pppModeEnable, receiveState, pppState, gsm, ppp, subscribers)
    }

    ghost predicate Recorded()
      reads this
    {
      Run(run) && Final(run) == last
    }

    ghost predicate Valid()
      reads this
    {
      Recorded() && last == Now()
    }

    /** The last recorded step is the GSM task's action `g`. */
    ghost predicate LastWas(g: GsmAction)
      reads this
    {
      run != [] && run[|run| - 1].action == Gsm(g)
    }

    ghost predicate PppMoved()
      reads this
    {
      run != [] && run[|run| - 1].action.Ppp?
    }

    constructor ()
      ensures Valid() && Now() == BOOT && run == []
      ensures !init && !notRespond && !pppModeEnable && !receiveState && pppState == NotInited && subscribers == 0
    {
      init, notRespond, pppModeEnable, receiveState := false, false, false, false;
      pppState, ppp, subscribers := NotInited, Setup, 0;
      gsm, run, last := LoopTop, [], BOOT;
    }

    /** The fields now hold what GSM action `g` makes of the last recorded state. */
    ghost method Did(g: GsmAction)
      requires Recorded() && GsmEnabled(last, g) && Now() == GsmApply(last, g)
      modifies `run, `last
      ensures Valid() && LastWas(g) && old(run) < run && |run| == |old(run)| + 1
    {
      run := RunExtend(run, Gsm(g));
      last := Now();
    }

    ghost method PppDid(p: PppAction)
      requires Recorded() && PppEnabled(last, p) && Now() == PppApply(last, p)
      requires GsmYields(last.gsm)
      modifies `run, `last
      ensures Valid() && PppMoved() && old(run) < run
    {
      run := RunExtend(run, Ppp(p));
      last := Now();
    }

    // ---- the other parties ----

    /** The status callback stores one of two values. */
    method Callback(ready: bool)
      requires Valid()
      modifies `pppState, `run, `last
      ensures Valid()
      ensures old(run) <= run
      ensures Now() == old(Now()).(pppState := if ready then ReadyWork else NotInited)
    {
      pppState := if ready then ReadyWork else NotInited;
      run := RunExtend(run, CallbackWrite(ready));
      last := Now();
    }

    /** Statements of the PPP task up to `ppp_connect`, which answers `connected`. */
    method PppConnect(connected: bool)
      requires Valid() && GsmYields(gsm)
      requires ppp.Top? || ppp.FirstState? || ppp.SecondState? || ppp.Claim? || ppp.Connect?
      modifies `pppState, `ppp, `run, `last
      ensures Valid() && PppMoved() && ppp != old(ppp)
      ensures old(run) <= run
    {
      match ppp {
        case Top => ppp := if pppModeEnable then FirstState else ReadyTest; PppDid(PTop);
        case FirstState =>
          ppp := if pppState != WaitForConnect then SecondState else ReadyTest;
          PppDid(PFirstState);
        case SecondState =>
          ppp := if pppState != ReadyWork then Claim else ReadyTest;
          PppDid(PSecondState);
        case Claim => pppState, ppp := WaitForConnect, Connect; PppDid(PClaim);
        case Connect =>
          ppp := if connected then ReadyTest else FailClose;
          PppDid(PConnect(connected));
      }
    }

    /** Statements after a failed `ppp_connect`. */
    method PppFail()
      requires Valid() && GsmYields(gsm)
      requires ppp.FailClose? || ppp.FailState? || ppp.FailMode? || ppp.FailInit? || ppp.FailFlag?
      modifies `init, `notRespond, `pppModeEnable, `pppState, `ppp, `run, `last
      ensures Valid() && PppMoved() && ppp != old(ppp)
      ensures old(run) <= run
    {
      match ppp {
        case FailClose => ppp := FailState; PppDid(PClose);
        case FailState => pppState, ppp := NotInited, FailMode; PppDid(PState);
        case FailMode => pppModeEnable, ppp := false, FailInit; PppDid(PMode);
        case FailInit => init, ppp := false, FailFlag; PppDid(PInit);
        case FailFlag => notRespond, ppp := true, ReadyTest; PppDid(PFlag);
      }
    }

    /** The PPP task performs its next statement; in its inner loop it does nothing. */
    method PppTask(connected: bool)
      requires Valid() && GsmYields(gsm)
      modifies `init, `notRespond, `pppModeEnable, `pppState, `ppp, `subscribers, `run, `last
      ensures Valid()
      ensures old(run) <= run
      ensures if old(ppp).Parked? then Now() == old(Now()) else PppMoved() && ppp != old(ppp)
    {
      if ppp.Setup? || ppp.Asleep? {
        var setup := ppp.Setup?;
        ppp := Top;
        PppDid(if setup then PSetup else PWake);
      } else if ppp.ReadyTest? {
        ppp := if pppState == ReadyWork then CreateSubscriber else Asleep;
        PppDid(PReady);
      } else if ppp.CreateSubscriber? {
        subscribers, ppp := subscribers + 1, Parked;
        PppDid(PSubscribe);
      } else if ppp.Top? || ppp.FirstState? || ppp.SecondState? || ppp.Claim? || ppp.Connect? {
        PppConnect(connected);
      } else if ppp != Parked {
        PppFail();
      }
    }

    /** The GSM task blocks: the PPP task and the callback run as long as they like. */
    method Block()
      requires Valid() && GsmYields(gsm)
      modifies `init, `notRespond, `pppModeEnable, `pppState, `ppp, `subscribers, `run, `last
      ensures Valid()
      ensures old(run) <= run
    {
      var turns: nat := *;
      while turns > 0
        invariant Valid() && gsm == old(gsm)
        invariant old(run) <= run
      {
        var ppps, answer: bool := *, *;
        if ppps {
          PppTask(answer);
        } else {
          Callback(answer);
        }
        turns := turns - 1;
      }
    }

    // ---- the GSM task ----

    /** The wait for reply bytes. The parser's error branch for PPP mode is proved dead. */
    method AwaitReply(site: Site) returns (ok: bool)
      requires Valid() && gsm == At(site, Listen)
      modifies this
      ensures Valid() && gsm == AfterExchange(site, ok) && LastWas(if ok then GMatch else GTimeout)
      ensures old(run) <= run
    {
      var bytes: nat := *;  // how many reply bytes arrive before the wait times out
      Block();
      while bytes > 0
        invariant Valid() && gsm == At(site, Listen)
        invariant old(run) <= run
      {
        ModeExclusion(run);
        if pppModeEnable {
          assert false;
        }
        var matches: bool := *;
        if matches {
          receiveState, init := false, if site.Probe? then false else init;
          gsm := AfterExchange(site, true);
          Did(GMatch);
          return true;
        }
        Did(GByte);
        Block();
        bytes := bytes - 1;
      }
      receiveState, gsm := false, AfterExchange(site, false);
      Did(GTimeout);
      ok := false;
    }

    /** `runAtCommand` */
    method RunAtCommand(site: Site) returns (ok: bool)
      requires Valid() && gsm == At(site, Pause)
      modifies this
      ensures Valid() && gsm == AfterExchange(site, ok) && (ok ==> LastWas(GMatch))
      ensures old(run) <= run
    {
      Block();
      var memory, sent: bool := *, *;
      if !memory {
        gsm := AfterExchange(site, false);
        Did(GNoMemory);
        return false;
      }
      receiveState := true;
      if !sent {
        gsm := AfterExchange(site, false);
        Did(GNoTransmit);
        return false;
      }
      gsm := At(site, Listen);
      Did(GOpen);
      ok := AwaitReply(site);
    }

    /** One attempt of `gsmLLR_PowerUp`: probe a powered module, press the key of a dark one. */
    method TryPower(attempt: nat) returns (ok: bool)
      requires Valid() && gsm == PowerTry(attempt) && attempt < POWER_ATTEMPTS
      modifies this
      ensures Valid() && gsm == if ok then TestFlag else PowerTry(attempt + 1)
      ensures old(run) <= run
    {
      var up: bool := *;
      gsm := if up then At(Probe(attempt), Pause) else PowerKey(attempt);
      Did(GPin(up));
      if up {
        ok := RunAtCommand(Probe(attempt));
      } else {
        Block();
        gsm := PowerTry(attempt + 1);
        Did(GKeyDone);
        ok := false;
      }
    }

    /** `gsmLLR_PowerUp` */
    method PowerUp() returns (ok: bool)
      requires Valid() && gsm == StatusPin
      modifies this
      ensures Valid() && gsm == if ok then TestFlag else LostClearInit
      ensures old(run) <= run
    {
      ok := *;
      gsm := if ok then TestFlag else PowerTry(0);
      Did(GPin(ok));
      var attempt := 0;
      while !ok && attempt < POWER_ATTEMPTS
        invariant Valid() && attempt <= POWER_ATTEMPTS
        invariant old(run) <= run
        invariant gsm == if ok then TestFlag else PowerTry(attempt)
      {
        ok := TryPower(attempt);
        if !ok {
          attempt := attempt + 1;
        }
      }
      if !ok {
        gsm := LostClearInit;
        Did(GPowerGiveUp);
      }
    }

    /** `gsmLLR_Reset` */
    method Reset()
      requires Valid() && gsm == LostReset
      modifies this
      ensures Valid() && gsm == LostClearFlag
      ensures old(run) <= run
    {
      Block();
      gsm := LostClearFlag;
      Did(GResetDone);
    }

    /** The store that ends a reset (gsmLLR.c:158). */
    method ClearNotRespond()
      requires Valid() && gsm == LostClearFlag
      modifies this
      ensures Valid() && gsm == LoopTop && !notRespond && LastWas(GLostDone)
      ensures old(run) <= run
    {
      notRespond, gsm := false, LoopTop;
      Did(GLostDone);
    }

    /** `gsmLLR_ModuleLost` */
    method ModuleLost()
      requires Valid() && gsm == LostClearInit
      modifies this
      ensures Valid() && gsm == LoopTop && !notRespond && LastWas(GLostDone)
      ensures old(run) <= run
    {
      init, gsm := false, LostReset;
      Did(GLostInit);
      Reset();
      ClearNotRespond();
    }

    /** The command that turns the radio on, and the pause after it. */
    method TurnRadioOn()
      requires Valid() && gsm == At(Radio, Pause)
      modifies this
      ensures Valid() && gsm == At(Apn, Pause)
      ensures old(run) <= run
    {
      var _ := RunAtCommand(Radio);
      Block();
      gsm := At(Apn, Pause);
      Did(GRadioDone);
    }

    /** The three commands that name the network and dial; their answers are ignored. */
    method DialPpp()
      requires Valid() && gsm == At(Apn, Pause)
      modifies this
      ensures Valid() && gsm == ModeFirst
      ensures old(run) <= run
    {
      var _ := RunAtCommand(Apn);
      var _ := RunAtCommand(Context);
      var _ := RunAtCommand(Dial);
    }

    /** The first pair of stores that turn PPP mode on (gsmLLR.c:216-217). */
    method EnterPppMode()
      requires Valid() && gsm == ModeFirst
      modifies this
      ensures Valid() && gsm == QueueReset && pppModeEnable && receiveState
      ensures old(run) <= run
    {
      pppModeEnable, gsm := true, RxFirst;
      Did(GModeFirst);
      receiveState, gsm := true, QueueReset;
      Did(GRxFirst);
    }

    /** `gsmLLR_StartPPP`, which ignores what its four commands answer; `granted` is the allocator's answer. */
    method StartPpp(granted: bool)
      requires Valid() && gsm == AllocCommand
      modifies this
      ensures Valid() && gsm == QueueReset && (granted ==> pppModeEnable && receiveState)
      ensures old(run) <= run
    {
      gsm := if granted then At(Radio, Pause) else QueueReset;
      Did(GAlloc(granted));
      if granted {
        TurnRadioOn();
        DialPpp();
        EnterPppMode();
      }
    }

    /** The stages from the first `AT` to the flow-control stage. */
    method SetUpModem() returns (ok: bool)
      requires Valid() && gsm == At(Ready, Pause)
      modifies this
      ensures Valid() && gsm == if ok then At(Imei, Pause) else MarkFailed
      ensures old(run) <= run
    {
      ok := RunAtCommand(Ready);
      if !ok { return; }
      var _ := RunAtCommand(Warnings);
      ok := RunAtCommand(Restore);
      if !ok { return; }
      gsm := At(Imei, Pause);
      Did(GFlow);
    }

    /** The stages that read identity and version. */
    method ReadIdentity() returns (ok: bool)
      requires Valid() && gsm == At(Imei, Pause)
      modifies this
      ensures Valid() && gsm == if ok then At(Registration, Pause) else MarkFailed
      ensures old(run) <= run
    {
      ok := RunAtCommand(Imei);
      if !ok { return; }
      ok := RunAtCommand(Imsi);
      if !ok { return; }
      ok := RunAtCommand(Version);
    }

    /** The stages that ask about the network and the SIM card. */
    method ReadNetwork() returns (ok: bool)
      requires Valid() && gsm == At(Registration, Pause)
      modifies this
      ensures Valid() && gsm == if ok then AllocCommand else MarkFailed
      ensures old(run) <= run
    {
      ok := RunAtCommand(Registration);
      if !ok { return; }
      ok := RunAtCommand(Signal);
      if !ok { return; }
      ok := RunAtCommand(SimNumber);
    }

    /** The queue reset and the second store of PPP mode (gsm.c:129-130). */
    method ResetAndEnter()
      requires Valid() && gsm == QueueReset
      modifies this
      ensures Valid() && gsm == RxSecond && pppModeEnable
      ensures old(run) <= run
    {
      gsm := ModeSecond;
      Did(GQueueReset);
      pppModeEnable, gsm := true, RxSecond;
      Did(GModeSecond);
    }

    /** The stores that open reception and mark the link ready (gsm.c:131-132). */
    method MarkReady()
      requires Valid() && gsm == RxSecond
      modifies `receiveState, `init, `gsm, `run, `last
      ensures Valid() && gsm == LoopDelay && init && receiveState
      ensures old(run) <= run
    {
      receiveState, gsm := true, SetInit;
      Did(GRxSecond);
      init, gsm := true, LoopDelay;
      Did(GOnline);
    }

    /** The store after a failed stage. */
    method MarkNotRespond()
      requires Valid() && gsm == MarkFailed
      modifies this
      ensures Valid() && gsm == LoopTop && notRespond && LastWas(GMark)
      ensures old(run) <= run
    {
      notRespond, gsm := true, LoopTop;
      Did(GMark);
    }

    /** All stages between the test of `notRespond` and the start of PPP. */
    method RunStages() returns (ok: bool)
      requires Valid() && gsm == At(Ready, Pause)
      modifies this
      ensures Valid() && gsm == if ok then AllocCommand else LoopTop
      ensures old(run) <= run
      ensures !ok ==> notRespond && LastWas(GMark)
    {
      ok := SetUpModem();
      if ok {
        ok := ReadIdentity();
      }
      if ok {
        ok := ReadNetwork();
      }
      if !ok {
        MarkNotRespond();
      }
    }

    /** The test of gsm.c:67-71; the answer is false when the module was reset. */
    method TestNotRespond() returns (ok: bool)
      requires Valid() && gsm == TestFlag
      modifies this
      ensures Valid() && gsm == if ok then At(Ready, Pause) else LoopTop
      ensures old(run) <= run
      ensures ok == !old(notRespond) && (!ok ==> LastWas(GLostDone))
    {
      ok := !notRespond;
      gsm := if notRespond then LostClearInit else At(Ready, Pause);
      Did(GFlag);
      if !ok {
        ModuleLost();
      }
    }

    /** The last stage and the stores after it (gsm.c:127-132). */
    method GoOnline()
      requires Valid() && gsm == AllocCommand
      modifies this
      ensures Valid() && gsm == LoopDelay && init && receiveState
      ensures old(run) <= run
    {
      var granted: bool := *;
      StartPpp(granted);
      ResetAndEnter();
      MarkReady();
    }

    /** The bring-up branch; the answer is false where the source says `continue`. */
    method BringUp() returns (ok: bool)
      requires Valid() && gsm == StatusPin
      modifies this
      ensures Valid() && gsm == if ok then LoopDelay else LoopTop
      ensures old(run) <= run
      ensures ok ==> init && receiveState
      ensures !ok ==> LastWas(GLostDone) || LastWas(GMark)
    {
      ok := PowerUp();
      if !ok {
        ModuleLost();
        return;
      }
      ok := TestNotRespond();
      if ok {
        ok := RunStages();
      }
      if ok {
        GoOnline();
      }
    }

    /** The test at the top of the loop. */
    method TestInit()
      requires Valid() && gsm == LoopTop
      modifies `gsm, `run, `last
      ensures Valid() && gsm == if init then LoopDelay else StatusPin
      ensures old(run) < run && run[|old(run)|].action == Gsm(GTop)
    {
      gsm := if init then LoopDelay else StatusPin;
      Did(GTop);
    }

    /**
     One turn of the loop of `vGsmTask`: it begins at the top and ends with the delay, a reset or a
     failed stage.
     */
    method Pass()
      requires Valid() && gsm == LoopTop
      modifies this
      ensures Valid() && gsm == LoopTop
      ensures old(run) < run && run[|old(run)|].action == Gsm(GTop)
      ensures LastWas(GWake) || (!old(init) && (LastWas(GLostDone) || LastWas(GMark)))
    {
      TestInit();
      if !init {
        var ok := BringUp();
        if !ok {
          return;
        }
      }
      Block();
      gsm := LoopTop;
      Did(GWake);
    }

    /**
     `vGsmTask`, cut off after any number of turns of its endless loop. `starts` are the steps at
     which the turns begin.
     */
    method VGsmTask(count: nat) returns (ghost starts: seq<nat>)
      requires Valid() && gsm == LoopTop
      modifies this
      ensures Valid() && gsm == LoopTop && old(run) <= run
      ensures |starts| == count && BeginTurns(run, |old(run)|, starts)
      ensures init == pppModeEnable || (ppp.FailInit? && init)
    {
      starts := [];
      for turn := 0 to count
        invariant Valid() && gsm == LoopTop && old(run) <= run
        invariant |starts| == turn && BeginTurns(run, |old(run)|, starts)
      {
        starts := starts + [|run|];
        Pass();
      }
      RunKeepsInv(run);
    }
  }

  /** Each of `starts`, in increasing order from step `from` on, is a pass of the top of the loop. */
  predicate BeginTurns(run: seq<Step>, from: nat, starts: seq<nat>) {
    && (forall i :: 0 <= i < |starts| ==> from <= starts[i] < |run| && run[starts[i]].action == Gsm(GTop))
    && (forall i, j :: 0 <= i < j < |starts| ==> starts[i] < starts[j])
  }
}
