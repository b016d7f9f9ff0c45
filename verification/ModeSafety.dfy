/**
 What every run of the mode protocol keeps: AT mode and PPP mode exclude each other, and a
 connected modem stays connected.
 */
module ModeSafety {
  import opened ModeProtocol

  /** The PPP task has seen PPP mode on and has not yet given up (gsmPPP.c:102-112). */
  predicate InConnectWindow(pc: PppPc) {
    || pc.FirstState? || pc.SecondState? || pc.Claim? || pc.Connect?
    || pc.FailClose? || pc.FailState? || pc.FailMode? || pc.FailInit?
  }

  /** Inside the bring-up branch, up to the first write of PPP mode (gsm.c:62, gsmLLR.c:216). */
  predicate InBringUp(pc: GsmPc) {
    || pc.StatusPin? || pc.PowerTry? || pc.PowerKey? || pc.At? || pc.TestFlag? || pc.FlowControl?
    || pc.MarkFailed? || pc.LostClearInit? || pc.LostReset? || pc.LostClearFlag?
    || pc.AllocCommand? || pc.RadioPause? || pc.ModeFirst?
  }

  /** The stretch from gsmLLR.c:216 to gsm.c:132, which contains no blocking call. */
  predicate InSwitch(pc: GsmPc) {
    || pc.RxFirst? || pc.QueueReset? || pc.ModeSecond? || pc.RxSecond? || pc.SetInit?
  }

  predicate InLoop(pc: GsmPc) {
    pc.LoopTop? || pc.LoopDelay?
  }

  predicate ModeAgrees(s: State) {
    && (InBringUp(s.gsm) ==> !s.init && !s.pppModeEnable)
    && (InSwitch(s.gsm) ==> !s.init)
    && (s.gsm.RxFirst? || s.gsm.RxSecond? || s.gsm.SetInit? ==> s.pppModeEnable)
    && (InLoop(s.gsm) && !s.ppp.FailInit? ==> s.init == s.pppModeEnable)
  }

  predicate WindowAgrees(s: State) {
    && (InConnectWindow(s.ppp) ==> s.init && InLoop(s.gsm))
    && (InConnectWindow(s.ppp) ==> s.pppModeEnable == !s.ppp.FailInit?)
  }

  predicate Inv(s: State) {
    && ModeAgrees(s)
    && WindowAgrees(s)
    && (s.gsm.SetInit? || s.init ==> s.receiveState)
    && s.subscribers == (if s.ppp.Parked? then 1 else 0)
    && !s.pppState.Disconnected?
  }

  lemma GsmKeepsInv(s: State, a: GsmAction)
    requires Inv(s) && GsmEnabled(s, a)
    ensures Inv(GsmApply(s, a))
  {
    if s.gsm.At? {
      ExchangeKeepsInv(s, a);
    }
  }

  lemma ExchangeKeepsInv(s: State, a: GsmAction)
    requires Inv(s) && GsmEnabled(s, a) && s.gsm.At?
    ensures Inv(GsmApply(s, a))
  {
    assert InBringUp(AfterExchange(s.gsm.site, true)) && InBringUp(AfterExchange(s.gsm.site, false));
  }

  lemma PppKeepsInv(s: State, a: PppAction)
    requires Inv(s) && PppEnabled(s, a) && GsmYields(s.gsm)
    ensures Inv(PppApply(s, a))
  {
  }

  lemma StepKeepsInv(t: Step)
    requires Inv(t.pre) && Legal(t) && Scheduled(t.pre, t.action)
    ensures Inv(t.post)
  {
    match t.action {
      case Gsm(g) => GsmKeepsInv(t.pre, g);
      case Ppp(p) => PppKeepsInv(t.pre, p);
      case CallbackWrite(_) =>
    }
  }

  lemma {:induction false} RunKeepsInv(run: seq<Step>)
    requires Run(run)
    ensures Inv(Final(run))
  {
    if run != [] {
      RunPrefix(run);
      RunKeepsInv(run[..|run| - 1]);
      StepKeepsInv(run[|run| - 1]);
    }
  }

  /**
   Mode exclusion. In every reachable state: while an AT exchange is in progress PPP mode is off,
   the link is not marked ready and the PPP task is outside its connect window; and whenever the
   GSM task is blocked the two flags agree, except between the two stores that take PPP down.
   */
  lemma ModeExclusion(run: seq<Step>)
    requires Run(run)
    ensures var s := Final(run);
            && (s.gsm.At? ==> !s.pppModeEnable && !s.init && !InConnectWindow(s.ppp))
            && (s.gsm.At? ==> s.ppp in {Setup, Top, FailFlag, ReadyTest, CreateSubscriber, Parked, Asleep})
            && (GsmYields(s.gsm) ==>
                  if s.ppp.FailInit? then s.init && !s.pppModeEnable else s.init == s.pppModeEnable)
  {
    RunKeepsInv(run);
  }

  /** A reply byte reaching the AT parser while PPP mode is on: the parser's error branch. */
  predicate ParsesInPppMode(t: Step) {
    t.action == Gsm(GByte) && t.pre.pppModeEnable
  }

  lemma ParserErrorUnreachable(run: seq<Step>, i: nat)
    requires Run(run) && i < |run|
    ensures !ParsesInPppMode(run[i])
  {
    RunTake(run, i);
    ModeExclusion(run[..i]);
  }

  /** The GSM task starts the switch only from AT mode with the link down. */
  lemma SwitchStartsFromAtMode(run: seq<Step>, i: nat)
    requires Run(run) && i < |run| && run[i].action == Gsm(GModeFirst)
    ensures !run[i].pre.pppModeEnable && !run[i].pre.init
  {
    RunTake(run, i);
    RunKeepsInv(run[..i]);
  }

  // ---- the connected state ----

  /** The PPP task sits in its inner loop and the link is marked ready. */
  predicate Online(s: State) {
    s.ppp.Parked? && s.init
  }

  /**
   Once online, every later state is online, in PPP mode, receiving, with exactly one subscriber
   task; the GSM task never again enters its bring-up branch.
   */
  lemma {:induction false} OnlineIsStable(run: seq<Step>, i: nat)
    requires Run(run) && i <= |run| && Online(Final(run[..i]))
    ensures var s := Final(run);
            && Online(s) && s.init && s.ppp == Parked && s.pppModeEnable && s.receiveState && s.subscribers == 1
            && (s.gsm == LoopTop || s.gsm == LoopDelay)
    decreases |run|
  {
    RunKeepsInv(run);
    if i < |run| {
      RunPrefix(run);
      var shorter := run[..|run| - 1];
      assert shorter[..i] == run[..i];
      OnlineIsStable(shorter, i);
      RunKeepsInv(shorter);
    } else {
      assert run[..i] == run;
    }
  }

  /** How many times the subscriber task was created in a run. */
  function Creations(run: seq<Step>): nat {
    if run == [] then 0
    else Creations(run[..|run| - 1]) + (if run[|run| - 1].action == Ppp(PSubscribe) then 1 else 0)
  }

  lemma OnlySubscribeCounts(t: Step)
    requires Legal(t)
    ensures t.post.subscribers == t.pre.subscribers + (if t.action == Ppp(PSubscribe) then 1 else 0)
  {
  }

  lemma {:induction false} CreationsCounted(run: seq<Step>)
    requires Run(run)
    ensures Creations(run) == Final(run).subscribers
  {
    if run != [] {
      RunPrefix(run);
      CreationsCounted(run[..|run| - 1]);
      OnlySubscribeCounts(run[|run| - 1]);
    }
  }

  lemma OnlyReadyLeadsToCreate(t: Step)
    requires Legal(t) && t.post.ppp.CreateSubscriber?
    ensures if t.action == Ppp(PReady) then t.pre.pppState.ReadyWork?
            else !t.action.Ppp? && t.pre.ppp.CreateSubscriber?
  {
    if t.action.Gsm? {
      GsmLeavesPpp(t.pre, t.action.g);
    }
  }

  lemma GsmLeavesPpp(s: State, g: GsmAction)
    requires GsmEnabled(s, g)
    ensures GsmApply(s, g).ppp == s.ppp
  {
  }

  /** The PPP task's last action before it creates the subscriber task. */
  lemma {:induction false} SubscriberSawReady(run: seq<Step>) returns (j: nat)
    requires Run(run) && Final(run).ppp.CreateSubscriber?
    ensures j < |run| && run[j].action == Ppp(PReady) && run[j].pre.pppState.ReadyWork?
    ensures forall k :: j < k < |run| ==> !run[k].action.Ppp?
  {
    RunPrefix(run);
    OnlyReadyLeadsToCreate(run[|run| - 1]);
    j := |run| - 1;
    if run[j].action != Ppp(PReady) {
      j := SubscriberSawReady(run[..j]);
    }
  }

  /**
   The subscriber task is created at most once, and when it is, the PPP task's preceding action
   was to observe `ppp_ready_work`; the state `ppp_disconnected` never occurs.
   */
  lemma SubscriberCreatedOnce(run: seq<Step>)
    requires Run(run)
    ensures Creations(run) <= 1
    ensures !Final(run).pppState.Disconnected?
    ensures forall i :: 0 <= i < |run| && run[i].action == Ppp(PSubscribe) ==>
              exists j :: 0 <= j < i && run[j].action == Ppp(PReady) && run[j].pre.pppState.ReadyWork?
                          && forall k :: j < k < i ==> !run[k].action.Ppp?
  {
    RunKeepsInv(run);
    CreationsCounted(run);
    forall i | 0 <= i < |run| && run[i].action == Ppp(PSubscribe)
      ensures exists j :: 0 <= j < i && run[j].action == Ppp(PReady) && run[j].pre.pppState.ReadyWork?
                          && forall k :: j < k < i ==> !run[k].action.Ppp?
    {
      RunTake(run, i);
      var j := SubscriberSawReady(run[..i]);
      assert run[j].action == Ppp(PReady) && run[j].pre.pppState.ReadyWork?;
      assert forall k :: j < k < i ==> run[k] == run[..i][k];
    }
  }
}
