/**
 The hand-over of one UART between the AT command parser and PPP.

 Three parties share the flags `init`, `notRespond`, `pppModeEnable`, `receiveState` and `pppState`
 without a lock: the GSM task (gsm.c), the PPP task (gsmPPP.c) and the lwIP status callback.
 Each shared access is one step of a machine with a program counter per task. The GSM task has the
 higher priority, so the PPP task moves only while the GSM task is blocked; the callback runs in
 the tcpip thread, whose priority equals the GSM task's, so it may run at any time.
 */
module ModeProtocol {

  datatype PppState = NotInited | WaitForConnect | ReadyWork | Disconnected

  /** The AT exchanges of a bring-up pass, in program order. */
  datatype Site =
    | Probe(attempt: nat)
    | Ready | Warnings | Restore | Imei | Imsi | Version | Registration | Signal | SimNumber
    | Radio | Apn | Context | Dial

  /** `Pause` is the delay before the command is sent, `Listen` the wait for reply bytes. */
  datatype Phase = Pause | Listen

  datatype GsmPc =
    | LoopTop
    | StatusPin | PowerTry(attempt: nat) | PowerKey(attempt: nat)
    | At(site: Site, phase: Phase)
    | TestFlag | FlowControl | MarkFailed
    | LostClearInit | LostReset | LostClearFlag
    | AllocCommand | RadioPause
    | ModeFirst | RxFirst | QueueReset | ModeSecond | RxSecond | SetInit
    | LoopDelay

  datatype PppPc =
    | Setup | Top | FirstState | SecondState | Claim | Connect
    | FailClose | FailState | FailMode | FailInit | FailFlag
    | ReadyTest | CreateSubscriber | Parked | Asleep

  datatype State = State(
    init: bool,
    notRespond: bool,
    pppModeEnable: bool,
    receiveState: bool,
    pppState: PppState,
    gsm: GsmPc,
    ppp: PppPc,
    subscribers: nat)

  /** One action per shared access or decision; a payload is the value the environment chose. */
  datatype GsmAction =
    | GTop | GPin(up: bool) | GPowerGiveUp | GKeyDone
    | GOpen | GNoMemory | GNoTransmit | GByte | GMatch | GTimeout
    | GFlag | GFlow | GMark | GLostInit | GResetDone | GLostDone
    | GAlloc(granted: bool) | GRadioDone
    | GModeFirst | GRxFirst | GQueueReset | GModeSecond | GRxSecond | GOnline | GWake

  datatype PppAction =
    | PSetup | PTop | PFirstState | PSecondState | PClaim | PConnect(ok: bool)
    | PClose | PState | PMode | PInit | PFlag
    | PReady | PSubscribe | PWake

  datatype Action = Gsm(g: GsmAction) | Ppp(p: PppAction) | CallbackWrite(ready: bool)

  const POWER_ATTEMPTS: nat := 3

  /** The points where the GSM task blocks in the kernel: delays and waits for a reply byte. */
  predicate GsmYields(pc: GsmPc) {
    pc.At? || pc.PowerKey? || pc.LostReset? || pc.RadioPause? || pc.LoopDelay?
  }

  /** Where the GSM task goes when the exchange at `site` has ended. */
  function AfterExchange(site: Site, ok: bool): GsmPc {
    match site
    case Probe(k) => if ok then TestFlag else PowerTry(k + 1)
    case Ready => if ok then At(Warnings, Pause) else MarkFailed
    case Warnings => At(Restore, Pause)
    case Restore => if ok then FlowControl else MarkFailed
    case Imei => if ok then At(Imsi, Pause) else MarkFailed
    case Imsi => if ok then At(Version, Pause) else MarkFailed
    case Version => if ok then At(Registration, Pause) else MarkFailed
    case Registration => if ok then At(Signal, Pause) else MarkFailed
    case Signal => if ok then At(SimNumber, Pause) else MarkFailed
    case SimNumber => if ok then AllocCommand else MarkFailed
    case Radio => RadioPause
    case Apn => At(Context, Pause)
    case Context => At(Dial, Pause)
    case Dial => ModeFirst
  }

  predicate GsmEnabled(s: State, a: GsmAction) {
    match a
    case GTop => s.gsm.LoopTop?
    case GPin(_) => s.gsm.StatusPin? || (s.gsm.PowerTry? && s.gsm.attempt < POWER_ATTEMPTS)
    case GPowerGiveUp => s.gsm.PowerTry? && s.gsm.attempt >= POWER_ATTEMPTS
    case GKeyDone => s.gsm.PowerKey?
    case GOpen => s.gsm.At? && s.gsm.phase.Pause?
    case GNoMemory => s.gsm.At? && s.gsm.phase.Pause?
    case GNoTransmit => s.gsm.At? && s.gsm.phase.Pause?
    case GByte => s.gsm.At? && s.gsm.phase.Listen?
    case GMatch => s.gsm.At? && s.gsm.phase.Listen? && !s.pppModeEnable
    case GTimeout => s.gsm.At? && s.gsm.phase.Listen?
    case GFlag => s.gsm.TestFlag?
    case GFlow => s.gsm.FlowControl?
    case GMark => s.gsm.MarkFailed?
    case GLostInit => s.gsm.LostClearInit?
    case GResetDone => s.gsm.LostReset?
    case GLostDone => s.gsm.LostClearFlag?
    case GAlloc(_) => s.gsm.AllocCommand?
    case GRadioDone => s.gsm.RadioPause?
    case GModeFirst => s.gsm.ModeFirst?
    case GRxFirst => s.gsm.RxFirst?
    case GQueueReset => s.gsm.QueueReset?
    case GModeSecond => s.gsm.ModeSecond?
    case GRxSecond => s.gsm.RxSecond?
    case GOnline => s.gsm.SetInit?
    case GWake => s.gsm.LoopDelay?
  }

  function GsmApply(s: State, a: GsmAction): State
    requires GsmEnabled(s, a)
  {
    match a
    case GTop => s.(gsm := if s.init then LoopDelay else StatusPin)
    case GPin(up) =>
      if s.gsm.StatusPin? then s.(gsm := if up then TestFlag else PowerTry(0))
      else s.(gsm := if up then At(Probe(s.gsm.attempt), Pause) else PowerKey(s.gsm.attempt))
    case GPowerGiveUp => s.(gsm := LostClearInit)
    case GKeyDone => s.(gsm := PowerTry(s.gsm.attempt + 1))
    case GOpen => s.(receiveState := true, gsm := At(s.gsm.site, Listen))
    case GNoMemory => s.(gsm := AfterExchange(s.gsm.site, false))
    case GNoTransmit => s.(receiveState := true, gsm := AfterExchange(s.gsm.site, false))
    case GByte => s
    case GMatch =>
      s.(receiveState := false,
         init := if s.gsm.site.Probe? then false else s.init,
         gsm := AfterExchange(s.gsm.site, true))
    case GTimeout => s.(receiveState := false, gsm := AfterExchange(s.gsm.site, false))
    case GFlag => s.(gsm := if s.notRespond then LostClearInit else At(Ready, Pause))
    case GFlow => s.(gsm := At(Imei, Pause))
    case GMark => s.(notRespond := true, gsm := LoopTop)
    case GLostInit => s.(init := false, gsm := LostReset)
    case GResetDone => s.(gsm := LostClearFlag)
    case GLostDone => s.(notRespond := false, gsm := LoopTop)
    case GAlloc(granted) => s.(gsm := if granted then At(Radio, Pause) else QueueReset)
    case GRadioDone => s.(gsm := At(Apn, Pause))
    case GModeFirst => s.(pppModeEnable := true, gsm := RxFirst)
    case GRxFirst => s.(receiveState := true, gsm := QueueReset)
    case GQueueReset => s.(gsm := ModeSecond)
    case GModeSecond => s.(pppModeEnable := true, gsm := RxSecond)
    case GRxSecond => s.(receiveState := true, gsm := SetInit)
    case GOnline => s.(init := true, gsm := LoopDelay)
    case GWake => s.(gsm := LoopTop)
  }

  predicate PppEnabled(s: State, a: PppAction) {
    match a
    case PSetup => s.ppp.Setup?
    case PTop => s.ppp.Top?
    case PFirstState => s.ppp.FirstState?
    case PSecondState => s.ppp.SecondState?
    case PClaim => s.ppp.Claim?
    case PConnect(_) => s.ppp.Connect?
    case PClose => s.ppp.FailClose?
    case PState => s.ppp.FailState?
    case PMode => s.ppp.FailMode?
    case PInit => s.ppp.FailInit?
    case PFlag => s.ppp.FailFlag?
    case PReady => s.ppp.ReadyTest?
    case PSubscribe => s.ppp.CreateSubscriber?
    case PWake => s.ppp.Asleep?
  }

  function PppApply(s: State, a: PppAction): State
    requires PppEnabled(s, a)
  {
    match a
    case PSetup => s.(ppp := Top)
    case PTop => s.(ppp := if s.pppModeEnable then FirstState else ReadyTest)
    case PFirstState => s.(ppp := if s.pppState.WaitForConnect? then ReadyTest else SecondState)
    case PSecondState => s.(ppp := if s.pppState.ReadyWork? then ReadyTest else Claim)
    case PClaim => s.(pppState := WaitForConnect, ppp := Connect)
    case PConnect(ok) => s.(ppp := if ok then ReadyTest else FailClose)
    case PClose => s.(ppp := FailState)
    case PState => s.(pppState := NotInited, ppp := FailMode)
    case PMode => s.(pppModeEnable := false, ppp := FailInit)
    case PInit => s.(init := false, ppp := FailFlag)
    case PFlag => s.(notRespond := true, ppp := ReadyTest)
    case PReady => s.(ppp := if s.pppState.ReadyWork? then CreateSubscriber else Asleep)
    case PSubscribe => s.(subscribers := s.subscribers + 1, ppp := Parked)
    case PWake => s.(ppp := Top)
  }

  /** An action is enabled by the program counters alone: any interleaving of the three parties. */
  predicate Enabled(s: State, a: Action) {
    match a
    case Gsm(g) => GsmEnabled(s, g)
    case Ppp(p) => PppEnabled(s, p)
    case CallbackWrite(_) => true
  }

  /** The callback's only shared effect is to store one of two values in `pppState`. */
  function Apply(s: State, a: Action): State
    requires Enabled(s, a)
  {
    match a
    case Gsm(g) => GsmApply(s, g)
    case Ppp(p) => PppApply(s, p)
    case CallbackWrite(ready) => s.(pppState := if ready then ReadyWork else NotInited)
  }

  /** The scheduler: the PPP task runs only while the higher-priority GSM task is blocked. */
  predicate Scheduled(s: State, a: Action) {
    a.Ppp? ==> GsmYields(s.gsm)
  }

  const BOOT := State(false, false, false, false, NotInited, LoopTop, Setup, 0)

  datatype Step = Step(pre: State, action: Action, post: State)

  predicate Legal(t: Step) {
    Enabled(t.pre, t.action) && t.post == Apply(t.pre, t.action)
  }

  function Final(run: seq<Step>): State {
    if run == [] then BOOT else run[|run| - 1].post
  }

  predicate FitsAt(run: seq<Step>, i: nat)
    requires i < |run|
  {
    run[i].pre == Final(run[..i]) && Legal(run[i])
  }

  /** A run of the tasks under any interleaving at all. */
  predicate AnyOrderRun(run: seq<Step>) {
    forall i :: 0 <= i < |run| ==> FitsAt(run, i)
  }

  predicate ScheduledAt(run: seq<Step>, i: nat)
    requires i < |run|
  {
    Scheduled(run[i].pre, run[i].action)
  }

  /** A run under the task priorities. */
  predicate Run(run: seq<Step>) {
    AnyOrderRun(run) && forall i :: 0 <= i < |run| ==> ScheduledAt(run, i)
  }

  lemma AnyOrderTake(run: seq<Step>, n: nat)
    requires AnyOrderRun(run) && n <= |run|
    ensures AnyOrderRun(run[..n])
  {
    forall i | 0 <= i < n ensures FitsAt(run[..n], i) {
      assert FitsAt(run, i);
      assert run[..n][..i] == run[..i];
    }
  }

  lemma RunTake(run: seq<Step>, n: nat)
    requires Run(run) && n <= |run|
    ensures Run(run[..n])
    ensures n < |run| ==> run[n].pre == Final(run[..n]) && Legal(run[n]) && Scheduled(run[n].pre, run[n].action)
  {
    AnyOrderTake(run, n);
    forall i | 0 <= i < n ensures ScheduledAt(run[..n], i) {
      assert ScheduledAt(run, i);
    }
    if n < |run| {
      assert FitsAt(run, n) && ScheduledAt(run, n);
    }
  }

  lemma RunPrefix(run: seq<Step>)
    requires Run(run) && run != []
    ensures Run(run[..|run| - 1])
    ensures run[|run| - 1].pre == Final(run[..|run| - 1])
    ensures Legal(run[|run| - 1]) && Scheduled(run[|run| - 1].pre, run[|run| - 1].action)
  {
    RunTake(run, |run| - 1);
  }

  lemma AnyOrderExtend(run: seq<Step>, a: Action) returns (longer: seq<Step>)
    requires AnyOrderRun(run) && Enabled(Final(run), a)
    ensures longer == run + [Step(Final(run), a, Apply(Final(run), a))] && AnyOrderRun(longer)
  {
    longer := run + [Step(Final(run), a, Apply(Final(run), a))];
    forall i | 0 <= i < |longer| ensures FitsAt(longer, i) {
      assert longer[..i] == run[..i];
      assert i < |run| ==> FitsAt(run, i);
      assert run[..|run|] == run;
    }
  }

  lemma RunExtend(run: seq<Step>, a: Action) returns (longer: seq<Step>)
    requires Run(run)
    requires Enabled(Final(run), a) && Scheduled(Final(run), a)
    ensures longer == run + [Step(Final(run), a, Apply(Final(run), a))]
    ensures Run(longer) && Final(longer) == Apply(Final(run), a)
  {
    longer := AnyOrderExtend(run, a);
    forall i | 0 <= i < |longer| ensures ScheduledAt(longer, i) {
      assert i < |run| ==> ScheduledAt(run, i);
    }
  }
}
