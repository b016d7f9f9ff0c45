/**
 Program order, read off a run alone: which action of a task can follow which, which store changes
 which flag, which commands the modem has been sent, and where the PPP task can cut in.
 */
module ModeProgram {
  import opened ModeProtocol

  // ---- the actions of a run ----

  predicate Does(t: Step, g: GsmAction) {
    t.action == Gsm(g)
  }

  /** A look at the module's status pin. */
  predicate Looks(t: Step) {
    t.action.Gsm? && t.action.g.GPin?
  }

  /** The first action of an exchange: the command is sent, or cannot be. */
  predicate Begins(t: Step, site: Site) {
    && t.action.Gsm? && (t.action.g.GOpen? || t.action.g.GNoMemory? || t.action.g.GNoTransmit?)
    && t.pre.gsm.At? && t.pre.gsm.site == site
  }

  /** An action while a reply is awaited. */
  predicate Awaits(t: Step, site: Site) {
    && t.action.Gsm? && (t.action.g.GByte? || t.action.g.GMatch? || t.action.g.GTimeout?)
    && t.pre.gsm.At? && t.pre.gsm.site == site
  }

  /** The last action of an exchange; it succeeds if a marker matched. */
  predicate Ends(t: Step) {
    && t.action.Gsm? && t.pre.gsm.At?
    && (t.action.g.GMatch? || t.action.g.GTimeout? || t.action.g.GNoMemory? || t.action.g.GNoTransmit?)
  }

  // ---- the GSM task ----

  /** What follows an exchange (gsmLLR.c:119-225, gsm.c:62-127). */
  predicate FollowsExchange(site: Site, ok: bool, b: Step) {
    match site
    case Probe(_) => if ok then Does(b, GFlag) else Looks(b) || Does(b, GPowerGiveUp)
    case Ready => if ok then Begins(b, Warnings) else Does(b, GMark)
    case Warnings => Begins(b, Restore)
    case Restore => if ok then Does(b, GFlow) else Does(b, GMark)
    case Imei => if ok then Begins(b, Imsi) else Does(b, GMark)
    case Imsi => if ok then Begins(b, Version) else Does(b, GMark)
    case Version => if ok then Begins(b, Registration) else Does(b, GMark)
    case Registration => if ok then Begins(b, Signal) else Does(b, GMark)
    case Signal => if ok then Begins(b, SimNumber) else Does(b, GMark)
    case SimNumber => if ok then Does(b, GAlloc(true)) || Does(b, GAlloc(false)) else Does(b, GMark)
    case Radio => Does(b, GRadioDone)
    case Apn => Begins(b, Context)
    case Context => Begins(b, Dial)
    case Dial => Does(b, GModeFirst)
  }

  /**
   What follows a look at the pin: a module found up on entry is not probed; later looks lead to a
   probe of a powered module and to the power key of a dark one.
   */
  ghost predicate FollowsLook(a: Step, up: bool, b: Step) {
    if a.pre.gsm.StatusPin? then (if up then Does(b, GFlag) else Looks(b))
    else if up then exists k :: Begins(b, Probe(k))
    else Does(b, GKeyDone)
  }

  /** What follows every other action of the GSM task. */
  predicate FollowsOther(a: Step, b: Step)
    requires a.action.Gsm?
  {
    match a.action.g
    case GTop => if a.pre.init then Does(b, GWake) else Looks(b)
    case GKeyDone => Looks(b) || Does(b, GPowerGiveUp)
    case GPowerGiveUp => Does(b, GLostInit)
    case GFlag => if a.pre.notRespond then Does(b, GLostInit) else Begins(b, Ready)
    case GLostInit => Does(b, GResetDone)
    case GResetDone => Does(b, GLostDone)
    case GLostDone => Does(b, GTop)
    case GFlow => Begins(b, Imei)
    case GMark => Does(b, GTop)
    case GAlloc(granted) => if granted then Begins(b, Radio) else Does(b, GQueueReset)
    case GRadioDone => Begins(b, Apn)
    case GModeFirst => Does(b, GRxFirst)
    case GRxFirst => Does(b, GQueueReset)
    case GQueueReset => Does(b, GModeSecond)
    case GModeSecond => Does(b, GRxSecond)
    case GRxSecond => Does(b, GOnline)
    case GOnline => Does(b, GWake)
    case GWake => Does(b, GTop)
    case _ => false
  }

  ghost predicate InOrder(a: Step, b: Step)
    requires a.action.Gsm?
  {
    && (Ends(a) ==> FollowsExchange(a.pre.gsm.site, a.action.g.GMatch?, b))
    && (a.action.g.GOpen? || a.action.g.GByte? ==> a.pre.gsm.At? && Awaits(b, a.pre.gsm.site))
    && (a.action.g.GPin? ==> FollowsLook(a, a.action.g.up, b))
    && (!Ends(a) && !a.action.g.GOpen? && !a.action.g.GByte? && !a.action.g.GPin? ==> FollowsOther(a, b))
  }

  /** `j` is the GSM task's next action after `i`. */
  predicate NextGsm(run: seq<Step>, i: nat, j: nat) {
    && i < j < |run| && run[i].action.Gsm? && run[j].action.Gsm?
    && forall k :: i < k < j ==> !run[k].action.Gsm?
  }

  lemma OthersKeepGsm(t: Step)
    requires Legal(t) && !t.action.Gsm?
    ensures t.post.gsm == t.pre.gsm
  {
  }

  lemma {:induction false} GsmWaits(run: seq<Step>, i: nat, j: nat)
    requires Run(run) && i < j < |run| && forall k :: i < k < j ==> !run[k].action.Gsm?
    ensures run[j].pre.gsm == run[i].post.gsm
    decreases j
  {
    RunTake(run, j);
    assert run[..j][j - 1] == run[j - 1];
    if i < j - 1 {
      RunTake(run, j - 1);
      OthersKeepGsm(run[j - 1]);
      GsmWaits(run, i, j - 1);
    }
  }

  lemma AwaitsAt(b: Step, site: Site)
    requires Legal(b) && b.action.Gsm? && b.pre.gsm == At(site, Listen)
    ensures Awaits(b, site)
  {
  }

  lemma BeginsAt(b: Step, site: Site)
    requires Legal(b) && b.action.Gsm? && b.pre.gsm == At(site, Pause)
    ensures Begins(b, site)
  {
  }

  lemma ExchangeOrder(a: Step, b: Step)
    requires Legal(a) && Ends(a) && Legal(b) && b.action.Gsm? && b.pre.gsm == a.post.gsm
    ensures FollowsExchange(a.pre.gsm.site, a.action.g.GMatch?, b)
  {
    var site, ok := a.pre.gsm.site, a.action.g.GMatch?;
    EndsAt(a);
    SiteOrder(site, ok, b);
  }

  lemma EndsAt(a: Step)
    requires Legal(a) && Ends(a)
    ensures a.post.gsm == AfterExchange(a.pre.gsm.site, a.action.g.GMatch?)
  {
  }

  lemma SiteOrder(site: Site, ok: bool, b: Step)
    requires Legal(b) && b.action.Gsm? && b.pre.gsm == AfterExchange(site, ok)
    ensures FollowsExchange(site, ok, b)
  {
    if b.pre.gsm.At? {
      BeginsAt(b, b.pre.gsm.site);
    }
  }

  lemma LookOrder(a: Step, b: Step)
    requires Legal(a) && Looks(a) && Legal(b) && b.action.Gsm? && b.pre.gsm == a.post.gsm
    ensures FollowsLook(a, a.action.g.up, b)
  {
    if b.pre.gsm.At? {
      BeginsAt(b, b.pre.gsm.site);
    }
  }

  predicate InReset(g: GsmAction) {
    g.GKeyDone? || g.GPowerGiveUp? || g.GLostInit? || g.GResetDone? || g.GLostDone? || g.GMark?
  }

  predicate InSwitch(g: GsmAction) {
    g.GModeFirst? || g.GRxFirst? || g.GQueueReset? || g.GModeSecond? || g.GRxSecond? || g.GOnline? || g.GWake?
  }

  lemma ResetOrder(a: Step, b: Step)
    requires Legal(a) && a.action.Gsm? && Legal(b) && b.action.Gsm? && b.pre.gsm == a.post.gsm
    requires InReset(a.action.g)
    ensures FollowsOther(a, b)
  {
  }

  lemma SwitchOrder(a: Step, b: Step)
    requires Legal(a) && a.action.Gsm? && Legal(b) && b.action.Gsm? && b.pre.gsm == a.post.gsm
    requires InSwitch(a.action.g)
    ensures FollowsOther(a, b)
  {
  }

  lemma PassOrder(a: Step, b: Step)
    requires Legal(a) && a.action.Gsm? && Legal(b) && b.action.Gsm? && b.pre.gsm == a.post.gsm
    requires a.action.g.GTop? || a.action.g.GFlag? || a.action.g.GFlow? || a.action.g.GAlloc? || a.action.g.GRadioDone?
    ensures FollowsOther(a, b)
  {
    if b.pre.gsm.At? {
      BeginsAt(b, b.pre.gsm.site);
    }
  }

  lemma OtherOrder(a: Step, b: Step)
    requires Legal(a) && a.action.Gsm? && !a.pre.gsm.At? && !Looks(a)
    requires Legal(b) && b.action.Gsm? && b.pre.gsm == a.post.gsm
    ensures FollowsOther(a, b)
  {
    ExchangeActions(a);
    if InReset(a.action.g) {
      ResetOrder(a, b);
    } else if InSwitch(a.action.g) {
      SwitchOrder(a, b);
    } else {
      PassOrder(a, b);
    }
  }

  lemma OpenOrder(a: Step, b: Step)
    requires Legal(a) && a.action.Gsm? && (a.action.g.GOpen? || a.action.g.GByte?)
    requires Legal(b) && b.action.Gsm? && b.pre.gsm == a.post.gsm
    ensures a.pre.gsm.At? && Awaits(b, a.pre.gsm.site)
  {
    AwaitsAt(b, a.pre.gsm.site);
  }

  lemma ExchangeActions(a: Step)
    requires Legal(a) && a.action.Gsm?
    ensures a.pre.gsm.At? <==> Ends(a) || a.action.g.GOpen? || a.action.g.GByte?
    ensures a.pre.gsm.At? ==> !Looks(a)
    ensures !(Ends(a) && (a.action.g.GOpen? || a.action.g.GByte?))
  {
  }

  /**
   Program order of the GSM task. In every run, whatever the other parties do in between, each of its
   actions is followed by the one that comes next in the source, for the value it read or the outcome
   it had.
   */
  lemma GsmProgramOrder(run: seq<Step>, i: nat, j: nat)
    requires Run(run) && NextGsm(run, i, j)
    ensures InOrder(run[i], run[j])
  {
    RunTake(run, i);
    RunTake(run, j);
    GsmWaits(run, i, j);
    var a, b := run[i], run[j];
    ExchangeActions(a);
    if Ends(a) {
      ExchangeOrder(a, b);
    } else if a.pre.gsm.At? {
      OpenOrder(a, b);
    } else if Looks(a) {
      LookOrder(a, b);
    } else {
      OtherOrder(a, b);
    }
  }

  // ---- the PPP task ----

  predicate DoesPpp(t: Step, p: PppAction) {
    t.action == Ppp(p)
  }

  /** What follows each statement of the PPP task, for the value it read or the answer it got (gsmPPP.c:100-136). */
  predicate InPppOrder(a: Step, b: Step)
    requires a.action.Ppp?
  {
    match a.action.p
    case PSetup => DoesPpp(b, PTop)
    case PTop => if a.pre.pppModeEnable then DoesPpp(b, PFirstState) else DoesPpp(b, PReady)
    case PFirstState => if a.pre.pppState == WaitForConnect then DoesPpp(b, PReady) else DoesPpp(b, PSecondState)
    case PSecondState => if a.pre.pppState == ReadyWork then DoesPpp(b, PReady) else DoesPpp(b, PClaim)
    case PClaim => DoesPpp(b, PConnect(true)) || DoesPpp(b, PConnect(false))
    case PConnect(ok) => if ok then DoesPpp(b, PReady) else DoesPpp(b, PClose)
    case PClose => DoesPpp(b, PState)
    case PState => DoesPpp(b, PMode)
    case PMode => DoesPpp(b, PInit)
    case PInit => DoesPpp(b, PFlag)
    case PFlag => DoesPpp(b, PReady)
    case PReady => if a.pre.pppState == ReadyWork then DoesPpp(b, PSubscribe) else DoesPpp(b, PWake)
    case PSubscribe => false
    case PWake => DoesPpp(b, PTop)
  }

  predicate NextPpp(run: seq<Step>, i: nat, j: nat) {
    && i < j < |run| && run[i].action.Ppp? && run[j].action.Ppp?
    && forall k :: i < k < j ==> !run[k].action.Ppp?
  }

  lemma OthersKeepPpp(t: Step)
    requires Legal(t) && !t.action.Ppp?
    ensures t.post.ppp == t.pre.ppp
  {
  }

  lemma {:induction false} PppWaits(run: seq<Step>, i: nat, j: nat)
    requires Run(run) && i < j < |run| && forall k :: i < k < j ==> !run[k].action.Ppp?
    ensures run[j].pre.ppp == run[i].post.ppp
    decreases j
  {
    RunTake(run, j);
    assert run[..j][j - 1] == run[j - 1];
    if i < j - 1 {
      RunTake(run, j - 1);
      OthersKeepPpp(run[j - 1]);
      PppWaits(run, i, j - 1);
    }
  }

  lemma PppOrder(a: Step, b: Step)
    requires Legal(a) && a.action.Ppp? && Legal(b) && b.action.Ppp? && b.pre.ppp == a.post.ppp
    ensures InPppOrder(a, b)
  {
  }

  /**
   Program order of the PPP task. In particular `ppp_connect` is called only by a task that has just
   read neither `ppp_wait_for_connect` nor `ppp_ready_work`, and nothing follows the creation of the
   subscriber task.
   */
  lemma PppProgramOrder(run: seq<Step>, i: nat, j: nat)
    requires Run(run) && NextPpp(run, i, j)
    ensures InPppOrder(run[i], run[j])
  {
    RunTake(run, i);
    RunTake(run, j);
    PppWaits(run, i, j);
    PppOrder(run[i], run[j]);
  }

  // ---- the stores ----

  /** The value a flag has after a step that may set it, may clear it, or leaves it alone. */
  predicate Stored(before: bool, sets: bool, clears: bool, after: bool) {
    after == if sets then true else if clears then false else before
  }

  /**
   Who stores what. Each shared flag changes in exactly the steps of the source that store it, and to
   the value stored there.
   */
  lemma SharedStores(t: Step)
    requires Legal(t)
    ensures Stored(t.pre.pppModeEnable, Does(t, GModeFirst) || Does(t, GModeSecond), DoesPpp(t, PMode),
                   t.post.pppModeEnable)
    ensures Stored(t.pre.init, Does(t, GOnline),
                   || Does(t, GLostInit) || DoesPpp(t, PInit)
                   || (Does(t, GMatch) && t.pre.gsm.At? && t.pre.gsm.site.Probe?),
                   t.post.init)
    ensures Stored(t.pre.notRespond, Does(t, GMark) || DoesPpp(t, PFlag), Does(t, GLostDone), t.post.notRespond)
    ensures Stored(t.pre.receiveState,
                   Does(t, GOpen) || Does(t, GNoTransmit) || Does(t, GRxFirst) || Does(t, GRxSecond),
                   Does(t, GMatch) || Does(t, GTimeout), t.post.receiveState)
    ensures t.post.pppState ==
            if DoesPpp(t, PClaim) then WaitForConnect
            else if DoesPpp(t, PState) || t.action == CallbackWrite(false) then NotInited
            else if t.action == CallbackWrite(true) then ReadyWork
            else t.pre.pppState
    ensures t.post.subscribers == t.pre.subscribers + if DoesPpp(t, PSubscribe) then 1 else 0
  {
    match t.action {
      case Gsm(_) =>
        ModeStores(t);
        LinkStores(t);
        ReceiveStores(t);
      case Ppp(_) => PppStores(t);
      case CallbackWrite(_) =>
    }
  }

  lemma ModeStores(t: Step)
    requires Legal(t) && t.action.Gsm?
    ensures Stored(t.pre.pppModeEnable, Does(t, GModeFirst) || Does(t, GModeSecond), false, t.post.pppModeEnable)
    ensures t.post.pppState == t.pre.pppState && t.post.subscribers == t.pre.subscribers
  {
  }

  lemma LinkStores(t: Step)
    requires Legal(t) && t.action.Gsm?
    ensures Stored(t.pre.init, Does(t, GOnline),
                   Does(t, GLostInit) || (Does(t, GMatch) && t.pre.gsm.At? && t.pre.gsm.site.Probe?), t.post.init)
    ensures Stored(t.pre.notRespond, Does(t, GMark), Does(t, GLostDone), t.post.notRespond)
  {
  }

  lemma ReceiveStores(t: Step)
    requires Legal(t) && t.action.Gsm?
    ensures Stored(t.pre.receiveState,
                   Does(t, GOpen) || Does(t, GNoTransmit) || Does(t, GRxFirst) || Does(t, GRxSecond),
                   Does(t, GMatch) || Does(t, GTimeout), t.post.receiveState)
  {
  }

  lemma PppStores(t: Step)
    requires Legal(t) && t.action.Ppp?
    ensures Stored(t.pre.pppModeEnable, false, DoesPpp(t, PMode), t.post.pppModeEnable)
    ensures Stored(t.pre.init, false, DoesPpp(t, PInit), t.post.init)
    ensures Stored(t.pre.notRespond, DoesPpp(t, PFlag), false, t.post.notRespond)
    ensures t.post.receiveState == t.pre.receiveState
    ensures t.post.pppState ==
            if DoesPpp(t, PClaim) then WaitForConnect else if DoesPpp(t, PState) then NotInited else t.pre.pppState
    ensures t.post.subscribers == t.pre.subscribers + if DoesPpp(t, PSubscribe) then 1 else 0
  {
  }

  // ---- where the PPP task can cut in ----

  /** The GSM action ends a stretch in which the task was blocked: in a delay or waiting for a byte. */
  predicate Wakes(g: GsmAction) {
    || g.GOpen? || g.GNoMemory? || g.GNoTransmit? || g.GByte? || g.GMatch? || g.GTimeout?
    || g.GKeyDone? || g.GResetDone? || g.GRadioDone? || g.GWake?
  }

  lemma WakesWhereBlocked(s: State, g: GsmAction)
    requires GsmEnabled(s, g)
    ensures Wakes(g) <==> GsmYields(s.gsm)
  {
  }

  /** A step of the PPP task lies between two of the GSM task's only if the GSM task was blocked there. */
  lemma CutsInWhereBlocked(run: seq<Step>, i: nat, k: nat, j: nat)
    requires Run(run) && NextGsm(run, i, j) && i < k < j && run[k].action.Ppp?
    ensures Wakes(run[j].action.g)
  {
    RunTake(run, k);
    RunTake(run, j);
    GsmWaits(run, i, k);
    GsmWaits(run, i, j);
    WakesWhereBlocked(run[j].pre, run[j].action.g);
  }

  /** And wherever it is blocked the PPP task can move. */
  lemma MayCutIn(run: seq<Step>, g: GsmAction, p: PppAction) returns (longer: seq<Step>)
    requires Run(run) && GsmEnabled(Final(run), g) && Wakes(g) && PppEnabled(Final(run), p)
    ensures Run(longer) && longer != [] && longer[..|longer| - 1] == run && DoesPpp(longer[|longer| - 1], p)
  {
    WakesWhereBlocked(Final(run), g);
    longer := RunExtend(run, Ppp(p));
  }

  /** What the environment decides it can decide either way; a reply is matched only outside PPP mode. */
  lemma EnvironmentChooses(s: State, flag: bool)
    ensures s.gsm.At? && s.gsm.phase == Pause ==>
              GsmEnabled(s, GOpen) && GsmEnabled(s, GNoMemory) && GsmEnabled(s, GNoTransmit)
    ensures s.gsm.At? && s.gsm.phase == Listen ==>
              GsmEnabled(s, GByte) && GsmEnabled(s, GTimeout) && (GsmEnabled(s, GMatch) <==> !s.pppModeEnable)
    ensures s.gsm == StatusPin || s.gsm == PowerTry(0) || s.gsm == PowerTry(1) || s.gsm == PowerTry(2) ==>
              GsmEnabled(s, GPin(flag))
    ensures s.gsm == AllocCommand ==> GsmEnabled(s, GAlloc(flag))
    ensures s.ppp == Connect ==> PppEnabled(s, PConnect(flag))
    ensures Enabled(s, CallbackWrite(flag))
  {
  }

  // ---- the commands sent in a pass ----

  datatype Sent = Sent(site: Site, ok: bool)

  /** The exchanges ended since the GSM task last passed the top of its loop, the power-up probes left out. */
  function Commands(run: seq<Step>): seq<Sent> {
    if run == [] then [] else
    var t, before := run[|run| - 1], Commands(run[..|run| - 1]);
    if Does(t, GTop) then []
    else if Ends(t) && !t.pre.gsm.site.Probe? then before + [Sent(t.pre.gsm.site, Does(t, GMatch))]
    else before
  }

  const COMMANDS: seq<Site> :=
    [Ready, Warnings, Restore, Imei, Imsi, Version, Registration, Signal, SimNumber, Radio, Apn, Context, Dial]

  /** How many commands a pass has behind it at `pc`; -1 where it sends none any more. */
  function Position(pc: GsmPc): (k: int)
    ensures -1 <= k <= |COMMANDS|
  {
    match pc
    case StatusPin => 0
    case PowerTry(_) => 0
    case PowerKey(_) => 0
    case TestFlag => 0
    case FlowControl => 3
    case AllocCommand => 9
    case RadioPause => 10
    case ModeFirst => 13
    case At(site, _) =>
      (match site
       case Probe(_) => 0
       case Ready => 0
       case Warnings => 1
       case Restore => 2
       case Imei => 3
       case Imsi => 4
       case Version => 5
       case Registration => 6
       case Signal => 7
       case SimNumber => 8
       case Radio => 9
       case Apn => 10
       case Context => 11
       case Dial => 12)
    case _ => -1
  }

  /** The commands whose failure the source ignores. */
  predicate Ignored(site: Site) {
    site == Warnings || site == Radio || site == Apn || site == Context || site == Dial
  }

  predicate InSequence(sent: seq<Sent>, k: nat)
    requires k <= |COMMANDS|
  {
    |sent| == k && forall n :: 0 <= n < k ==> sent[n].site == COMMANDS[n] && (Ignored(COMMANDS[n]) || sent[n].ok)
  }

  lemma SiteAdvances(site: Site, ok: bool)
    ensures var k, next := Position(At(site, Pause)), Position(AfterExchange(site, ok));
            && Position(At(site, Listen)) == k >= 0
            && (next >= 0 ==> next == if site.Probe? then k else k + 1)
            && (!site.Probe? ==> k < |COMMANDS| && COMMANDS[k] == site)
            && (next >= 0 && !site.Probe? ==> Ignored(site) || ok)
  {
  }

  lemma SwitchLeaves(s: State, g: GsmAction)
    requires GsmEnabled(s, g) && InSwitch(g)
    ensures Position(GsmApply(s, g).gsm) == -1
  {
  }

  lemma ResetLeaves(s: State, g: GsmAction)
    requires GsmEnabled(s, g) && InReset(g)
    ensures var next := Position(GsmApply(s, g).gsm); if g.GKeyDone? then Position(s.gsm) == next == 0 else next == -1
  {
  }

  lemma PassKeeps(s: State, g: GsmAction)
    requires GsmEnabled(s, g) && !s.gsm.At? && !g.GTop? && !InSwitch(g) && !InReset(g)
    ensures Position(GsmApply(s, g).gsm) >= 0 ==> Position(GsmApply(s, g).gsm) == Position(s.gsm)
  {
  }

  lemma PcAdvances(t: Step)
    requires Legal(t) && t.action.Gsm? && !t.pre.gsm.At? && !Does(t, GTop) && Position(t.post.gsm) >= 0
    ensures Position(t.pre.gsm) == Position(t.post.gsm)
  {
    var g := t.action.g;
    if InSwitch(g) {
      SwitchLeaves(t.pre, g);
    } else if InReset(g) {
      ResetLeaves(t.pre, g);
    } else {
      PassKeeps(t.pre, g);
    }
  }

  lemma StepAdvances(t: Step)
    requires Legal(t) && !Does(t, GTop) && Position(t.post.gsm) >= 0
    ensures Position(t.pre.gsm) >= 0
    ensures if Ends(t) && !t.pre.gsm.site.Probe? then
              && Position(t.post.gsm) == Position(t.pre.gsm) + 1
              && COMMANDS[Position(t.pre.gsm)] == t.pre.gsm.site && (Ignored(t.pre.gsm.site) || Does(t, GMatch))
            else Position(t.post.gsm) == Position(t.pre.gsm)
  {
    if !t.action.Gsm? {
      OthersKeepGsm(t);
    } else if Ends(t) {
      EndsAt(t);
      SiteAdvances(t.pre.gsm.site, t.action.g.GMatch?);
    } else if t.pre.gsm.At? {
      ExchangeActions(t);
      SiteAdvances(t.pre.gsm.site, true);
      StaysAt(t);
    } else {
      PcAdvances(t);
    }
  }

  lemma StaysAt(t: Step)
    requires Legal(t) && t.action.Gsm? && (t.action.g.GOpen? || t.action.g.GByte?)
    ensures t.pre.gsm.At? && t.post.gsm.At? && t.post.gsm.site == t.pre.gsm.site
  {
  }

  lemma {:induction false} CommandsFollow(run: seq<Step>)
    requires Run(run) && Position(Final(run).gsm) >= 0
    ensures InSequence(Commands(run), Position(Final(run).gsm))
  {
    RunPrefix(run);
    var t, shorter := run[|run| - 1], run[..|run| - 1];
    if !Does(t, GTop) {
      StepAdvances(t);
      CommandsFollow(shorter);
    }
  }

  /**
   PPP mode is entered only on a modem that has been dialled. At every first store of PPP mode the pass
   has sent, in this order and nothing else, the thirteen commands of the source, the last of them the
   dial command; those whose failure is not ignored have succeeded.
   */
  lemma DialledBeforePpp(run: seq<Step>, i: nat)
    requires Run(run) && i < |run| && Does(run[i], GModeFirst)
    ensures var sent := Commands(run[..i]);
            && |sent| == 13
            && (forall n :: 0 <= n < 13 ==>
                  sent[n].site == [Ready, Warnings, Restore, Imei, Imsi, Version, Registration, Signal, SimNumber,
                                   Radio, Apn, Context, Dial][n])
            && sent[0].ok && sent[2].ok && (forall n :: 3 <= n < 9 ==> sent[n].ok)
  {
    RunTake(run, i);
    CommandsFollow(run[..i]);
  }

  lemma {:induction false} FirstActions(run: seq<Step>, j: nat)
    requires Run(run) && j < |run|
    ensures run[j].action.Gsm? && (forall k :: 0 <= k < j ==> !run[k].action.Gsm?) ==> Does(run[j], GTop)
    ensures run[j].action.Ppp? && (forall k :: 0 <= k < j ==> !run[k].action.Ppp?) ==> DoesPpp(run[j], PSetup)
  {
    RunTake(run, j);
    if forall k :: 0 <= k < j ==> !run[k].action.Gsm? {
      GsmAtStart(run, j);
    }
    if forall k :: 0 <= k < j ==> !run[k].action.Ppp? {
      PppAtStart(run, j);
    }
  }

  lemma {:induction false} GsmAtStart(run: seq<Step>, j: nat)
    requires Run(run) && j <= |run| && forall k :: 0 <= k < j ==> !run[k].action.Gsm?
    ensures Final(run[..j]).gsm == BOOT.gsm
  {
    if j > 0 {
      RunTake(run, j - 1);
      OthersKeepGsm(run[j - 1]);
      GsmAtStart(run, j - 1);
    }
  }

  lemma {:induction false} PppAtStart(run: seq<Step>, j: nat)
    requires Run(run) && j <= |run| && forall k :: 0 <= k < j ==> !run[k].action.Ppp?
    ensures Final(run[..j]).ppp == BOOT.ppp
  {
    if j > 0 {
      RunTake(run, j - 1);
      OthersKeepPpp(run[j - 1]);
      PppAtStart(run, j - 1);
    }
  }
}
