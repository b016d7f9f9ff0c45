/**
 The mutex around AT exchanges. Any number of tasks call the `gsmLLR_*` command functions in any
 order; a call is the list of kernel operations it performs, for the outcomes the environment
 chooses. The mutex is the non-recursive one FreeRTOS creates: taking it again blocks for ever.
 */
module AtMutex {
  import opened Wrappers

  /** `Start` and `Finish` bracket one `runAtCommand`; `Other` is work that needs no exchange. */
  datatype Op = Take | Start | Finish | Other | Give

  /** The command functions; payloads are the environment's choices. */
  datatype Command =
    | Single                                  // ATAT, GetIMEI, AtCREG, UpdateCSQ and their like
    | WarningOff
    | GetTime
    | StartPpp(memory: bool)
    | SendSms(memory: bool, prompt: bool)
    | GetLastMessage
    | Service                                 // connect, disconnect, status: no AT exchange
    | TcpSend(chunks: nat)
    | PowerUp(up: bool, attempts: seq<bool>)  // whether powered; which attempts probe with ATAT
    | FlowControl                             // takes no mutex

  const EXCHANGE: seq<Op> := [Start, Finish]

  function Bracket(body: seq<Op>): seq<Op> {
    [Take] + body + [Give]
  }

  function Repeat(ops: seq<Op>, n: nat): seq<Op> {
    if n == 0 then [] else Repeat(ops, n - 1) + ops
  }

  /** Each powered attempt of `gsmLLR_PowerUp` calls `gsmLLR_ATAT`; the others press the key. */
  function Attempts(probes: seq<bool>): seq<Op> {
    if probes == [] then []
    else (if probes[0] then Bracket(EXCHANGE) else [Other]) + Attempts(probes[1..])
  }

  function Ops(c: Command): seq<Op> {
    match c
    case Single => Bracket(EXCHANGE)
    case WarningOff => Bracket(EXCHANGE + EXCHANGE)
    case GetTime => Bracket(EXCHANGE) + Bracket(EXCHANGE)
    case StartPpp(memory) => Bracket(if memory then EXCHANGE + [Other] + EXCHANGE + EXCHANGE + EXCHANGE else [])
    case SendSms(memory, prompt) => Bracket(if memory then EXCHANGE + (if prompt then EXCHANGE else []) else [])
    case GetLastMessage => Bracket(EXCHANGE + [Other])
    case Service => Bracket([Other])
    case TcpSend(chunks) => Bracket(Repeat([Other], chunks) + [Other])
    case PowerUp(up, probes) => if up then [] else Attempts(probes)
    case FlowControl => []
  }

  /** How much of a bracket a task is inside. */
  datatype Depth = Outside | Inside | Exchanging

  /**
   The operations a task still has to perform fit its present depth: no take while holding the
   mutex, no exchange without it, and at the end the mutex is released.
   */
  predicate Fits(ops: seq<Op>, d: Depth) {
    if ops == [] then d.Outside?
    else match ops[0]
      case Take => d.Outside? && Fits(ops[1..], Inside)
      case Start => d.Inside? && Fits(ops[1..], Exchanging)
      case Finish => d.Exchanging? && Fits(ops[1..], Inside)
      case Other => Fits(ops[1..], d)
      case Give => d.Inside? && Fits(ops[1..], Outside)
  }

  /** Operations that leave the depth as they found it. */
  ghost predicate Neutral(ops: seq<Op>, d: Depth) {
    forall rest :: Fits(rest, d) ==> Fits(ops + rest, d)
  }

  lemma NeutralAppend(a: seq<Op>, b: seq<Op>, d: Depth)
    requires Neutral(a, d) && Neutral(b, d)
    ensures Neutral(a + b, d)
  {
    forall rest | Fits(rest, d) ensures Fits(a + b + rest, d) {
      assert a + b + rest == a + (b + rest);
    }
  }

  lemma NeutralExchange()
    ensures Neutral(EXCHANGE, Inside)
  {
    forall rest | Fits(rest, Inside) ensures Fits(EXCHANGE + rest, Inside) {
      assert (EXCHANGE + rest)[1..] == [Finish] + rest;
      assert ([Finish] + rest)[1..] == rest;
    }
  }

  lemma NeutralOther(d: Depth)
    ensures Neutral([Other], d) && Neutral([], d)
  {
    forall rest | Fits(rest, d) ensures Fits([Other] + rest, d) && Fits([] + rest, d) {
      assert ([Other] + rest)[1..] == rest && [] + rest == rest;
    }
  }

  lemma NeutralBracket(body: seq<Op>)
    requires Neutral(body, Inside)
    ensures Neutral(Bracket(body), Outside)
  {
    forall rest | Fits(rest, Outside) ensures Fits(Bracket(body) + rest, Outside) {
      assert ([Give] + rest)[1..] == rest;
      assert Fits([Give] + rest, Inside);
      assert (Bracket(body) + rest)[1..] == body + ([Give] + rest);
    }
  }

  lemma {:induction false} NeutralRepeat(n: nat)
    ensures Neutral(Repeat([Other], n), Inside)
  {
    NeutralOther(Inside);
    if n > 0 {
      NeutralRepeat(n - 1);
      NeutralAppend(Repeat([Other], n - 1), [Other], Inside);
    }
  }

  lemma {:induction false} NeutralAttempts(probes: seq<bool>)
    ensures Neutral(Attempts(probes), Outside)
  {
    NeutralOther(Outside);
    if probes != [] {
      NeutralExchange();
      NeutralBracket(EXCHANGE);
      NeutralAttempts(probes[1..]);
      NeutralAppend(if probes[0] then Bracket(EXCHANGE) else [Other], Attempts(probes[1..]), Outside);
    }
  }

  /** Every command function takes the mutex only when it does not hold it, and gives it back. */
  lemma CommandIsBracketed(c: Command)
    ensures Neutral(Ops(c), Outside)
    ensures Fits(Ops(c), Outside)
  {
    NeutralExchange();
    NeutralOther(Inside);
    NeutralOther(Outside);
    NeutralAppend(EXCHANGE, EXCHANGE, Inside);
    NeutralAppend(EXCHANGE, [Other], Inside);
    match c {
      case Single => NeutralBracket(EXCHANGE);
      case WarningOff => NeutralBracket(EXCHANGE + EXCHANGE);
      case GetTime =>
        NeutralBracket(EXCHANGE);
        NeutralAppend(Bracket(EXCHANGE), Bracket(EXCHANGE), Outside);
      case StartPpp(memory) =>
        NeutralAppend(EXCHANGE + [Other], EXCHANGE, Inside);
        NeutralAppend(EXCHANGE + [Other] + EXCHANGE, EXCHANGE, Inside);
        NeutralAppend(EXCHANGE + [Other] + EXCHANGE + EXCHANGE, EXCHANGE, Inside);
        NeutralBracket(if memory then EXCHANGE + [Other] + EXCHANGE + EXCHANGE + EXCHANGE else []);
      case SendSms(memory, prompt) =>
        assert EXCHANGE + [] == EXCHANGE;
        NeutralBracket(if memory then EXCHANGE + (if prompt then EXCHANGE else []) else []);
      case GetLastMessage => NeutralBracket(EXCHANGE + [Other]);
      case Service => NeutralBracket([Other]);
      case TcpSend(chunks) =>
        NeutralRepeat(chunks);
        NeutralAppend(Repeat([Other], chunks), [Other], Inside);
        NeutralBracket(Repeat([Other], chunks) + [Other]);
      case PowerUp(up, probes) => NeutralAttempts(probes);
      case FlowControl =>
    }
    assert Ops(c) + [] == Ops(c);
  }

  /** What each call does, operation by operation (gsmLLR.c:119-445, 499-530). */
  lemma CallsInFull(memory: bool, prompt: bool, probes: seq<bool>)
    ensures Ops(Single) == [Take, Start, Finish, Give]
    ensures Ops(WarningOff) == [Take, Start, Finish, Start, Finish, Give]
    ensures Ops(GetTime) == [Take, Start, Finish, Give, Take, Start, Finish, Give]
    ensures Ops(StartPpp(memory)) ==
            if memory then [Take, Start, Finish, Other, Start, Finish, Start, Finish, Start, Finish, Give]
            else [Take, Give]
    ensures Ops(SendSms(memory, prompt)) ==
            if !memory then [Take, Give]
            else if prompt then [Take, Start, Finish, Start, Finish, Give]
            else [Take, Start, Finish, Give]
    ensures Ops(GetLastMessage) == [Take, Start, Finish, Other, Give]
    ensures Ops(Service) == [Take, Other, Give]
    ensures Ops(PowerUp(true, probes)) == [] && Ops(FlowControl) == []
  {
  }

  function Count(ops: seq<Op>, op: Op): nat {
    if ops == [] then 0 else (if ops[0] == op then 1 else 0) + Count(ops[1..], op)
  }

  lemma {:induction false} CountAppend(a: seq<Op>, b: seq<Op>, op: Op)
    ensures Count(a + b, op) == Count(a, op) + Count(b, op)
  {
    if a == [] {
      assert a + b == b;
    } else {
      assert (a + b)[1..] == a[1..] + b;
      CountAppend(a[1..], b, op);
    }
  }

  /** A send of `chunks` chunks holds the mutex throughout and runs no AT exchange. */
  lemma {:induction false} SendInFull(chunks: nat)
    ensures Ops(TcpSend(chunks)) == [Take] + seq(chunks + 1, _ => Other) + [Give]
  {
    OthersInFull(chunks);
    assert Repeat([Other], chunks) + [Other] == seq(chunks + 1, _ => Other);
  }

  lemma {:induction false} OthersInFull(n: nat)
    ensures Repeat([Other], n) == seq(n, _ => Other)
  {
    if n > 0 {
      OthersInFull(n - 1);
    }
  }

  function Trues(probes: seq<bool>): nat {
    if probes == [] then 0 else (if probes[0] then 1 else 0) + Trues(probes[1..])
  }

  /** A power-up from off runs one exchange, under the mutex, for each attempt that finds the module powered. */
  lemma {:induction false} ProbesInFull(probes: seq<bool>)
    ensures Count(Ops(PowerUp(false, probes)), Start) == Count(Ops(PowerUp(false, probes)), Take) == Trues(probes)
    ensures Count(Ops(PowerUp(false, probes)), Finish) == Count(Ops(PowerUp(false, probes)), Give) == Trues(probes)
    ensures Count(Ops(PowerUp(false, probes)), Other) == |probes| - Trues(probes)
  {
    if probes != [] {
      ProbesInFull(probes[1..]);
      var first := if probes[0] then [Take, Start, Finish, Give] else [Other];
      assert Attempts(probes) == first + Attempts(probes[1..]);
      forall op: Op ensures Count(Attempts(probes), op) == Count(first, op) + Count(Attempts(probes[1..]), op) {
        CountAppend(first, Attempts(probes[1..]), op);
      }
      CountsOfFirst(probes[0]);
    }
  }

  lemma CountsOfFirst(probe: bool)
    ensures probe ==> forall op: Op :: Count([Take, Start, Finish, Give], op) == if op == Other then 0 else 1
    ensures !probe ==> forall op: Op :: Count([Other], op) == if op == Other then 1 else 0
  {
    assert [Take, Start, Finish, Give][1..] == [Start, Finish, Give];
    assert [Start, Finish, Give][1..] == [Finish, Give];
    assert [Finish, Give][1..] == [Give] && [Give][1..] == [] && [Other][1..] == [];
  }

  /** A task's whole life: one command after another. */
  function Program(commands: seq<Command>): seq<Op> {
    if commands == [] then [] else Ops(commands[0]) + Program(commands[1..])
  }

  /** Nothing is dropped when one more command follows. */
  lemma {:induction false} ProgramInFull(commands: seq<Command>, c: Command)
    ensures Program([]) == [] && Program(commands + [c]) == Program(commands) + Ops(c)
  {
    if commands == [] {
      assert [] + [c] == [c] && [c][1..] == [] && Ops(c) + [] == Ops(c) && [] + Ops(c) == Ops(c);
    } else {
      ProgramInFull(commands[1..], c);
      assert (commands + [c])[1..] == commands[1..] + [c];
      assert Ops(commands[0]) + (Program(commands[1..]) + Ops(c)) == Ops(commands[0]) + Program(commands[1..]) + Ops(c);
    }
  }

  lemma {:induction false} ProgramFits(commands: seq<Command>)
    ensures Fits(Program(commands), Outside)
  {
    if commands != [] {
      ProgramFits(commands[1..]);
      CommandIsBracketed(commands[0]);
    }
  }

  // ---- the tasks ----

  datatype Task = Task(ops: seq<Op>, depth: Depth)

  datatype State = State(owner: Option<nat>, tasks: seq<Task>)

  /** Task `t` can perform its next operation: a take waits until the mutex is free. */
  predicate CanStep(s: State, t: nat) {
    t < |s.tasks| && s.tasks[t].ops != [] && (s.tasks[t].ops[0].Take? ==> s.owner.None?)
  }

  function After(op: Op, d: Depth): Depth {
    match op
    case Take => Inside
    case Start => Exchanging
    case Finish => Inside
    case Other => d
    case Give => Outside
  }

  function Step(s: State, t: nat): State
    requires CanStep(s, t)
  {
    var me := s.tasks[t];
    var op := me.ops[0];
    State(if op.Take? then Some(t) else if op.Give? then None else s.owner,
          s.tasks[t := Task(me.ops[1..], After(op, me.depth))])
  }

  predicate Inv(s: State) {
    && (s.owner.Some? ==> s.owner.value < |s.tasks|)
    && forall t :: 0 <= t < |s.tasks| ==>
         Fits(s.tasks[t].ops, s.tasks[t].depth) && (s.tasks[t].depth.Outside? <==> s.owner != Some(t))
  }

  /** All tasks before their first call, each with its own commands ahead. */
  function Boot(programs: seq<seq<Command>>): State {
    State(None, seq(|programs|, i requires 0 <= i < |programs| => Task(Program(programs[i]), Outside)))
  }

  /** The state after the tasks named in `schedule` have stepped, those that cannot being skipped. */
  function RunFrom(programs: seq<seq<Command>>, schedule: seq<nat>): (s: State)
    ensures |s.tasks| == |programs|
  {
    if schedule == [] then Boot(programs) else
    var s, t := RunFrom(programs, schedule[..|schedule| - 1]), schedule[|schedule| - 1];
    if CanStep(s, t) then Step(s, t) else s
  }

  /** A scheduled task performs its next operation unless that is a take of an owned mutex; no other task moves. */
  lemma ScheduledStep(programs: seq<seq<Command>>, schedule: seq<nat>, t: nat)
    requires t < |programs|
    ensures var s, next := RunFrom(programs, schedule), RunFrom(programs, schedule + [t]);
            && (forall u :: 0 <= u < |programs| && u != t ==> next.tasks[u] == s.tasks[u])
            && if s.tasks[t].ops == [] || (s.tasks[t].ops[0] == Take && s.owner != None) then next == s
               else next.tasks[t].ops == s.tasks[t].ops[1..]
  {
    assert (schedule + [t])[..|schedule|] == schedule;
  }

  lemma {:induction false} RunKeepsInv(programs: seq<seq<Command>>, schedule: seq<nat>)
    ensures Inv(RunFrom(programs, schedule))
  {
    if schedule == [] {
      forall t | 0 <= t < |programs| ensures Fits(Program(programs[t]), Outside) {
        ProgramFits(programs[t]);
      }
    } else {
      RunKeepsInv(programs, schedule[..|schedule| - 1]);
    }
  }

  /**
   Mutual exclusion of AT exchanges, for any tasks, commands and schedule: at most one task is
   inside `runAtCommand`, it owns the mutex, and no task is about to take a mutex it owns.
   */
  lemma ExchangesExclude(programs: seq<seq<Command>>, schedule: seq<nat>)
    ensures var s := RunFrom(programs, schedule);
            && (forall t, u ::
                  (&& 0 <= t < |s.tasks| && s.tasks[t].depth.Exchanging?
                   && 0 <= u < |s.tasks| && s.tasks[u].depth.Exchanging?) ==> t == u)
            && (forall t :: 0 <= t < |s.tasks| && s.tasks[t].depth.Exchanging? ==> s.owner == Some(t))
            && (forall t :: 0 <= t < |s.tasks| && s.tasks[t].ops != [] && s.tasks[t].ops[0].Take? ==>
                  s.owner != Some(t))
            && (forall t :: 0 <= t < |s.tasks| && s.tasks[t].ops == [] ==> s.owner != Some(t))
  {
    RunKeepsInv(programs, schedule);
    var s := RunFrom(programs, schedule);
    forall t | 0 <= t < |s.tasks| ensures Fits(s.tasks[t].ops, s.tasks[t].depth) {
    }
  }

  /** No deadlock: as long as some task has operations left, some task can perform one. */
  lemma SomeTaskCanStep(programs: seq<seq<Command>>, schedule: seq<nat>, t: nat)
    requires t < |programs| && RunFrom(programs, schedule).tasks[t].ops != []
    ensures exists u :: CanStep(RunFrom(programs, schedule), u)
  {
    RunKeepsInv(programs, schedule);
    var s := RunFrom(programs, schedule);
    if s.owner.None? {
      assert CanStep(s, t);
    } else {
      var u := s.owner.value;
      assert Fits(s.tasks[u].ops, s.tasks[u].depth) && !s.tasks[u].depth.Outside?;
      assert CanStep(s, u);
    }
  }

  // ---- the history of a task ----

  /** Every exchange that is begun is finished at once: no operation comes between. */
  predicate Paired(ops: seq<Op>) {
    && (forall i :: 0 <= i < |ops| && ops[i] == Start ==> i + 1 < |ops| && ops[i + 1] == Finish)
    && (forall i :: 0 <= i < |ops| && ops[i] == Finish ==> i > 0 && ops[i - 1] == Start)
  }

  lemma PairedAppend(a: seq<Op>, b: seq<Op>)
    requires Paired(a) && Paired(b)
    ensures Paired(a + b)
  {
    var c := a + b;
    forall i | 0 <= i < |c| && c[i] == Start ensures i + 1 < |c| && c[i + 1] == Finish {
      if i >= |a| {
        assert b[i - |a|] == Start;
      }
    }
    forall i | 0 <= i < |c| && c[i] == Finish ensures i > 0 && c[i - 1] == Start {
      if i >= |a| {
        assert b[i - |a|] == Finish;
      }
    }
  }

  lemma {:induction false} AttemptsPaired(probes: seq<bool>)
    ensures Paired(Attempts(probes))
  {
    if probes != [] {
      AttemptsPaired(probes[1..]);
      var first := if probes[0] then [Take, Start, Finish, Give] else [Other];
      assert Attempts(probes) == first + Attempts(probes[1..]);
      PairedAppend(first, Attempts(probes[1..]));
    }
  }

  lemma PiecesPaired()
    ensures Paired([Take]) && Paired([Give]) && Paired([Other]) && Paired([Start, Finish]) && Paired([])
  {
  }

  lemma BracketPaired(body: seq<Op>)
    requires Paired(body)
    ensures Paired([Take] + body + [Give])
  {
    PiecesPaired();
    PairedAppend([Take], body);
    PairedAppend([Take] + body, [Give]);
  }

  lemma {:induction false} OthersPaired(n: nat)
    ensures Paired(Repeat([Other], n) + [Other])
  {
    OthersInFull(n);
  }

  lemma CommandPaired(c: Command)
    ensures Paired(Ops(c))
  {
    PiecesPaired();
    var exchange := [Start, Finish];
    PairedAppend(exchange, exchange);
    PairedAppend(exchange, [Other]);
    match c {
      case Single => BracketPaired(exchange);
      case WarningOff => BracketPaired(exchange + exchange);
      case GetTime =>
        BracketPaired(exchange);
        PairedAppend([Take] + exchange + [Give], [Take] + exchange + [Give]);
      case StartPpp(memory) =>
        PairedAppend(exchange + [Other], exchange);
        PairedAppend(exchange + [Other] + exchange, exchange);
        PairedAppend(exchange + [Other] + exchange + exchange, exchange);
        BracketPaired(if memory then exchange + [Other] + exchange + exchange + exchange else []);
      case SendSms(memory, prompt) =>
        assert exchange + [] == exchange;
        BracketPaired(if memory then exchange + (if prompt then exchange else []) else []);
      case GetLastMessage => BracketPaired(exchange + [Other]);
      case Service => BracketPaired([Other]);
      case TcpSend(chunks) =>
        OthersPaired(chunks);
        BracketPaired(Repeat([Other], chunks) + [Other]);
      case PowerUp(up, probes) => AttemptsPaired(probes);
      case FlowControl =>
    }
  }

  lemma {:induction false} ProgramPaired(commands: seq<Command>)
    ensures Paired(Program(commands))
  {
    if commands != [] {
      CommandPaired(commands[0]);
      ProgramPaired(commands[1..]);
      PairedAppend(Ops(commands[0]), Program(commands[1..]));
    }
  }

  /** The depth a task is at after the operations `done`, by what it did last and how often it took and gave. */
  predicate DepthAfter(done: seq<Op>, d: Depth) {
    && (d == Exchanging <==> done != [] && done[|done| - 1] == Start)
    && (d == Outside <==> Count(done, Take) == Count(done, Give))
    && Count(done, Give) <= Count(done, Take) <= Count(done, Give) + 1
  }

  lemma DepthStep(done: seq<Op>, ops: seq<Op>, d: Depth)
    requires Paired(done + ops) && ops != [] && Fits(ops, d) && DepthAfter(done, d)
    ensures DepthAfter(done + [ops[0]], After(ops[0], d))
  {
    CountAppend(done, [ops[0]], Take);
    CountAppend(done, [ops[0]], Give);
    assert [ops[0]][1..] == [];
    if d == Exchanging {
      assert (done + ops)[|done| - 1] == Start && (done + ops)[|done|] == ops[0];
    }
  }

  /** What a task has done and what it still has to do are its program, and its depth is what it has done. */
  predicate Historic(s: State, t: nat, program: seq<Op>, done: seq<Op>) {
    t < |s.tasks| && done + s.tasks[t].ops == program && DepthAfter(done, s.tasks[t].depth)
  }

  /**
   The depth of a task is not a convention. In every reachable state each task has performed a prefix of
   its program; it is inside `runAtCommand` exactly if the last thing it did was to start an exchange,
   and outside the mutex exactly if it gave it back as often as it took it.
   */
  lemma {:induction false} DepthIsHistory(programs: seq<seq<Command>>, schedule: seq<nat>, t: nat)
    returns (done: seq<Op>)
    requires t < |programs|
    ensures Historic(RunFrom(programs, schedule), t, Program(programs[t]), done)
  {
    if schedule == [] {
      done := [];
      assert [] + Program(programs[t]) == Program(programs[t]);
    } else {
      var shorter, u := schedule[..|schedule| - 1], schedule[|schedule| - 1];
      var s := RunFrom(programs, shorter);
      done := DepthIsHistory(programs, shorter, t);
      if u == t && CanStep(s, t) {
        RunKeepsInv(programs, shorter);
        ProgramPaired(programs[t]);
        var ops := s.tasks[t].ops;
        DepthStep(done, ops, s.tasks[t].depth);
        assert done + [ops[0]] + ops[1..] == done + ops;
        done := done + [ops[0]];
      }
    }
  }

  /** The first two steps of a lone task with one command put it inside an exchange, and it owns the mutex. */
  lemma LoneExchange()
    ensures var s := RunFrom([[Single]], [0, 0]); s.owner == Some(0) && s.tasks[0].depth == Exchanging
  {
    CallsInFull(false, false, []);
    var programs := [[Single]];
    assert Program([Single]) == [Take, Start, Finish, Give] by {
      assert [Single][1..] == [] && Program([]) == [];
      assert [Take, Start, Finish, Give] + [] == [Take, Start, Finish, Give];
    }
    var s0 := RunFrom(programs, []);
    assert s0.tasks[0].ops == [Take, Start, Finish, Give];
    assert [0][..0] == [] && [0, 0][..1] == [0];
    var s1 := RunFrom(programs, [0]);
    assert s1 == Step(s0, 0) && s1.tasks[0].ops == [Start, Finish, Give];
    var s2 := RunFrom(programs, [0, 0]);
    assert s2 == Step(s1, 0);
  }
}
