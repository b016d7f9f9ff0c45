/**
 Concrete runs of the mode protocol: the switch stretch must not be interrupted, and the flag a
 failed PPP connect raises can arrive while the next bring-up is already under way.
 */
module ModeWitness {
  import opened ModeProtocol
  import opened ModeSafety
  import opened ModeOrder

  /** The scheduling rule, with or without one exception: the switch stretch may be interrupted. */
  predicate MayRun(s: State, a: Action, interrupts: bool) {
    a.Ppp? ==> GsmYields(s.gsm) || (interrupts && InSwitch(s.gsm))
  }

  ghost predicate RunWith(run: seq<Step>, interrupts: bool) {
    AnyOrderRun(run) && forall i :: 0 <= i < |run| ==> MayRun(run[i].pre, run[i].action, interrupts)
  }

  lemma ExtendWith(run: seq<Step>, a: Action, interrupts: bool) returns (longer: seq<Step>)
    requires RunWith(run, interrupts) && Enabled(Final(run), a) && MayRun(Final(run), a, interrupts)
    ensures RunWith(longer, interrupts) && longer != []
    ensures longer[|longer| - 1] == Step(Final(run), a, Apply(Final(run), a))
  {
    longer := AnyOrderExtend(run, a);
  }

  ghost predicate Reachable(s: State, interrupts: bool) {
    exists run: seq<Step> :: RunWith(run, interrupts) && Final(run) == s
  }

  // The path lemmas speak of any predicate closed under the machine's steps, so that their proofs
  // never look inside a run.

  ghost predicate GsmClosed(reached: State -> bool) {
    && reached(BOOT)
    && forall s, g :: reached(s) && GsmEnabled(s, g) ==> reached(GsmApply(s, g))
  }

  ghost predicate PppClosed(reached: State -> bool, interrupts: bool) {
    forall s, p :: reached(s) && PppEnabled(s, p) && MayRun(s, Ppp(p), interrupts) ==> reached(PppApply(s, p))
  }

  lemma GsmStep(reached: State -> bool, s: State, g: GsmAction, next: State)
    requires GsmClosed(reached) && reached(s) && GsmEnabled(s, g) && next == GsmApply(s, g)
    ensures reached(next)
  {
  }

  lemma PppStep(reached: State -> bool, interrupts: bool, s: State, p: PppAction, next: State)
    requires PppClosed(reached, interrupts) && reached(s)
    requires PppEnabled(s, p) && next == PppApply(s, p) && MayRun(s, Ppp(p), interrupts)
    ensures reached(next)
  {
  }

  /** One successful exchange: the command is sent and its reply matches. */
  lemma Exchange(reached: State -> bool, s: State, next: GsmPc)
    requires GsmClosed(reached) && reached(s) && !s.pppModeEnable && !s.receiveState
    requires s.gsm.At? && s.gsm.phase.Pause? && !s.gsm.site.Probe?
    requires next == AfterExchange(s.gsm.site, true)
    ensures reached(s.(gsm := next))
  {
    var listening := s.(receiveState := true, gsm := At(s.gsm.site, Listen));
    GsmStep(reached, s, GOpen, listening);
    GsmStep(reached, listening, GMatch, s.(gsm := next));
  }

  /** A bring-up pass with no failure reaches the start of `gsmLLR_StartPPP`. */
  lemma Stages(reached: State -> bool)
    requires GsmClosed(reached)
    ensures reached(BOOT.(gsm := AllocCommand))
  {
    GsmStep(reached, BOOT, GTop, BOOT.(gsm := StatusPin));
    GsmStep(reached, BOOT.(gsm := StatusPin), GPin(true), BOOT.(gsm := TestFlag));
    GsmStep(reached, BOOT.(gsm := TestFlag), GFlag, BOOT.(gsm := At(Ready, Pause)));
    Exchange(reached, BOOT.(gsm := At(Ready, Pause)), At(Warnings, Pause));
    Exchange(reached, BOOT.(gsm := At(Warnings, Pause)), At(Restore, Pause));
    Exchange(reached, BOOT.(gsm := At(Restore, Pause)), FlowControl);
    GsmStep(reached, BOOT.(gsm := FlowControl), GFlow, BOOT.(gsm := At(Imei, Pause)));
    Exchange(reached, BOOT.(gsm := At(Imei, Pause)), At(Imsi, Pause));
    Exchange(reached, BOOT.(gsm := At(Imsi, Pause)), At(Version, Pause));
    Exchange(reached, BOOT.(gsm := At(Version, Pause)), At(Registration, Pause));
    Exchange(reached, BOOT.(gsm := At(Registration, Pause)), At(Signal, Pause));
    Exchange(reached, BOOT.(gsm := At(Signal, Pause)), At(SimNumber, Pause));
    Exchange(reached, BOOT.(gsm := At(SimNumber, Pause)), AllocCommand);
  }

  /** From there the four commands of `gsmLLR_StartPPP` reach the first write of PPP mode. */
  lemma DialUp(reached: State -> bool)
    requires GsmClosed(reached)
    ensures reached(BOOT.(gsm := ModeFirst))
  {
    Stages(reached);
    GsmStep(reached, BOOT.(gsm := AllocCommand), GAlloc(true), BOOT.(gsm := At(Radio, Pause)));
    Exchange(reached, BOOT.(gsm := At(Radio, Pause)), RadioPause);
    GsmStep(reached, BOOT.(gsm := RadioPause), GRadioDone, BOOT.(gsm := At(Apn, Pause)));
    Exchange(reached, BOOT.(gsm := At(Apn, Pause)), At(Context, Pause));
    Exchange(reached, BOOT.(gsm := At(Context, Pause)), At(Dial, Pause));
    Exchange(reached, BOOT.(gsm := At(Dial, Pause)), ModeFirst);
  }

  /** The PPP task starts up in PPP mode, fails to connect, and stops before clearing `init`. */
  lemma ConnectFails(reached: State -> bool, interrupts: bool, s: State)
    requires PppClosed(reached, interrupts) && reached(s)
    requires GsmYields(s.gsm) || (interrupts && InSwitch(s.gsm))
    requires s.ppp.Setup? && s.pppModeEnable && s.pppState.NotInited?
    ensures reached(s.(pppModeEnable := false, ppp := FailInit))
  {
    PppStep(reached, interrupts, s, PSetup, s.(ppp := Top));
    PppStep(reached, interrupts, s.(ppp := Top), PTop, s.(ppp := FirstState));
    PppStep(reached, interrupts, s.(ppp := FirstState), PFirstState, s.(ppp := SecondState));
    PppStep(reached, interrupts, s.(ppp := SecondState), PSecondState, s.(ppp := Claim));
    var w := s.(pppState := WaitForConnect);
    PppStep(reached, interrupts, s.(ppp := Claim), PClaim, w.(ppp := Connect));
    PppStep(reached, interrupts, w.(ppp := Connect), PConnect(false), w.(ppp := FailClose));
    PppStep(reached, interrupts, w.(ppp := FailClose), PClose, w.(ppp := FailState));
    PppStep(reached, interrupts, w.(ppp := FailState), PState, s.(ppp := FailMode));
    PppStep(reached, interrupts, s.(ppp := FailMode), PMode, s.(pppModeEnable := false, ppp := FailInit));
  }

  /** The GSM task finishes the switch stretch. */
  lemma Switch(reached: State -> bool, s: State)
    requires GsmClosed(reached) && reached(s) && s.gsm.RxFirst?
    ensures reached(s.(gsm := LoopDelay, pppModeEnable := true, receiveState := true, init := true))
  {
    var r := s.(receiveState := true);
    GsmStep(reached, s, GRxFirst, r.(gsm := QueueReset));
    GsmStep(reached, r.(gsm := QueueReset), GQueueReset, r.(gsm := ModeSecond));
    var m := r.(pppModeEnable := true);
    GsmStep(reached, r.(gsm := ModeSecond), GModeSecond, m.(gsm := RxSecond));
    GsmStep(reached, m.(gsm := RxSecond), GRxSecond, m.(gsm := SetInit));
    GsmStep(reached, m.(gsm := SetInit), GOnline, m.(gsm := LoopDelay, init := true));
  }

  /** The next pass gets past its test of `notRespond` without blocking. */
  lemma NextPass(reached: State -> bool, s: State)
    requires GsmClosed(reached) && reached(s) && s.gsm.LoopDelay? && !s.init && !s.notRespond
    ensures reached(s.(gsm := At(Ready, Pause)))
  {
    GsmStep(reached, s, GWake, s.(gsm := LoopTop));
    GsmStep(reached, s.(gsm := LoopTop), GTop, s.(gsm := StatusPin));
    GsmStep(reached, s.(gsm := StatusPin), GPin(true), s.(gsm := TestFlag));
    GsmStep(reached, s.(gsm := TestFlag), GFlag, s.(gsm := At(Ready, Pause)));
  }

  lemma ReachableIsClosed(interrupts: bool)
    ensures GsmClosed(s => Reachable(s, interrupts))
    ensures PppClosed(s => Reachable(s, interrupts), interrupts)
  {
    assert RunWith([], interrupts) && Final([]) == BOOT;
    forall s, a | Reachable(s, interrupts) && Enabled(s, a) && MayRun(s, a, interrupts)
      ensures Reachable(Apply(s, a), interrupts)
    {
      var run: seq<Step> :| RunWith(run, interrupts) && Final(run) == s;
      var longer := ExtendWith(run, a, interrupts);
      assert Final(longer) == Apply(s, a);
    }
    forall s, g | Reachable(s, interrupts) && GsmEnabled(s, g) ensures Reachable(GsmApply(s, g), interrupts) {
      assert Enabled(s, Gsm(g));
    }
    forall s, p | Reachable(s, interrupts) && PppEnabled(s, p) && MayRun(s, Ppp(p), interrupts)
      ensures Reachable(PppApply(s, p), interrupts)
    {
      assert Enabled(s, Ppp(p));
    }
  }

  /** With interrupts, both tasks' stores interleave into PPP mode on and `init` off. */
  lemma TornApart(reached: State -> bool)
    requires GsmClosed(reached) && PppClosed(reached, true)
    ensures reached(BOOT.(gsm := At(Ready, Listen), ppp := FailFlag, pppModeEnable := true, receiveState := true))
  {
    DialUp(reached);
    var s := BOOT.(gsm := RxFirst, pppModeEnable := true);
    GsmStep(reached, BOOT.(gsm := ModeFirst), GModeFirst, s);
    ConnectFails(reached, true, s);
    Switch(reached, s.(pppModeEnable := false, ppp := FailInit));
    var on := BOOT.(gsm := LoopDelay, pppModeEnable := true, receiveState := true);
    PppStep(reached, true, on.(init := true, ppp := FailInit), PInit, on.(ppp := FailFlag));
    NextPass(reached, on.(ppp := FailFlag));
    on := on.(ppp := FailFlag);
    GsmStep(reached, on.(gsm := At(Ready, Pause)), GOpen, on.(gsm := At(Ready, Listen)));
  }

  /**
   The switch stretch must be atomic: if it alone could be interrupted, a failed connect would
   take PPP mode down between the two stores that turn it on, and the next pass would parse an AT
   reply in PPP mode.
   */
  lemma SwitchMustBeAtomic()
    ensures exists run: seq<Step> :: RunWith(run, true) && run != [] && ParsesInPppMode(run[|run| - 1])
  {
    ReachableIsClosed(true);
    TornApart(s => Reachable(s, true));
    var s := BOOT.(gsm := At(Ready, Listen), ppp := FailFlag, pppModeEnable := true, receiveState := true);
    var run: seq<Step> :| RunWith(run, true) && Final(run) == s;
    var longer := ExtendWith(run, Gsm(GByte), true);
    assert ParsesInPppMode(longer[|longer| - 1]);
  }

  /** Under the priorities, a whole pass can fit between the last two stores of a failed connect. */
  lemma PassBeforeFlag(reached: State -> bool)
    requires GsmClosed(reached) && PppClosed(reached, false)
    ensures reached(BOOT.(gsm := At(Ready, Pause), ppp := FailFlag, receiveState := true))
  {
    DialUp(reached);
    var s := BOOT.(gsm := RxFirst, pppModeEnable := true);
    GsmStep(reached, BOOT.(gsm := ModeFirst), GModeFirst, s);
    Switch(reached, s);
    var up := s.(gsm := LoopDelay, receiveState := true, init := true);
    ConnectFails(reached, false, up);
    var down := up.(pppModeEnable := false, ppp := FailInit);
    PppStep(reached, false, down, PInit, down.(init := false, ppp := FailFlag));
    NextPass(reached, down.(init := false, ppp := FailFlag));
  }

  /** The late flag of `ModeOrder.LateFlag` does happen under the priorities. */
  lemma LateFlagHappens()
    ensures exists run: seq<Step>, more: seq<Step> :: Run(run) && run != [] && run[|run| - 1].action == Ppp(PFlag)
                                && SkipsReset(run, more)
  {
    ReachableIsClosed(false);
    PassBeforeFlag(s => Reachable(s, false));
    var s := BOOT.(gsm := At(Ready, Pause), ppp := FailFlag, receiveState := true);
    var run: seq<Step> :| RunWith(run, false) && Final(run) == s;
    assert forall i :: 0 <= i < |run| ==> MayRun(run[i].pre, run[i].action, false);
    assert Run(run);
    var longer := RunExtend(run, Ppp(PFlag));
    var more := StageFinishes(longer);
  }
}
