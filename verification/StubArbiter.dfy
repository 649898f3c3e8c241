/** StubArbiter of ecclesia/lib/stubarbiter/arbiter.h: calls that share one active stub, fail over
    from the primary to the secondary endpoint, and interleave at the granularity of the mutex. */
module StubArbiter {
  import opened Wrappers

  /** PriorityLabel; Unknown is last. */
  datatype Label = Primary | Secondary | Unknown

  /** A label the failover loop tries. */
  type Endpoint = l: Label | l != Unknown witness Primary

  function Rank(priority: Label): nat {
    match priority
    case Primary => 0
    case Secondary => 1
    case Unknown => 2
  }

  /** static_cast<PriorityLabel>(static_cast<int>(label) + 1) */
  function Following(priority: Label): Label
    requires priority != Unknown
  {
    if priority == Primary then Secondary else Unknown
  }

  /** absl::StatusCode; 0 is OK. */
  type Code = nat
  const OK: Code := 0

  /** Stubs are named by identity: the factory never hands out the same one twice. */
  type StubId = nat

  datatype Config = Config(failoverCodes: set<Code>, refresh: int) {
    /** The status sends the call on to the next endpoint. */
    predicate FailsOver(code: Code) { code != OK && code in failoverCodes }
  }

  /** The fields guarded by stub_mutex_. */
  datatype Shared = Shared(active: Option<StubId>, priority: Label, freshness: int)

  ghost predicate NullIffUnknown(s: Shared) { s.active.None? <==> s.priority == Unknown }

  // ---- The three critical sections ---------------------------------------------------------------

  /** The active stub, when it is primary or still fresh. */
  function TakeSticky(cfg: Config, s: Shared, now: int): Option<(StubId, Label)> {
    if s.active.Some? && (now < s.freshness + cfg.refresh || s.priority == Primary) then
      Some((s.active.value, s.priority))
    else None
  }

  /** Drop the active stub, unless it is no longer the one this call ran on. */
  function CompareAndClear(s: Shared, local: StubId): Shared {
    if s.active == Some(local) then s.(active := None, priority := Unknown) else s
  }

  function Install(stub: StubId, priority: Label, now: int): Shared {
    Shared(Some(stub), priority, now)
  }

  // ---- One call of Failover, as a program with its own control state -------------------------------

  datatype Event =
    | Sticky(stub: StubId, priority: Label, code: Code, readAt: int)  // func ran on the shared stub
    | Fresh(stub: StubId, priority: Label, code: Code)                // func ran on a new stub
    | NotMade(priority: Label, code: Code)                            // the factory failed

  datatype Control =
    | Enter
    | RunSticky(stub: StubId, priority: Label, readAt: int)
    | Clear(stub: StubId)
    | Try(priority: Label)
    | RunFresh(stub: StubId, endpoint: Endpoint)
    | Store(stub: StubId, endpoint: Endpoint)
    | Done

  /** log is what metrics.endpoint_metrics records, in order; overall is metrics.overall_status. */
  datatype Call = Call(pc: Control, initial: Label, attempted: Label, overall: Code, log: seq<Event>)

  /** What the outside world contributes to a step. */
  datatype Input = Clock(now: int) | Returned(code: Code) | Made(stub: StubId) | Refused(code: Code) | Silent

  predicate Accepts(call: Call, input: Input) {
    match call.pc
    case Enter => input.Clock?
    case RunSticky(_, _, _) => input.Returned?
    case Clear(_) => input.Silent?
    case Try(priority) =>
      if priority == Unknown || priority == call.attempted then input.Silent?
      else input.Made? || (input.Refused? && input.code != OK)
    case RunFresh(_, _) => input.Returned?
    case Store(_, _) => input.Clock?
    case Done => false
  }

  function Begin(initial: Label): Call { Call(Enter, initial, Unknown, OK, []) }

  function Step(cfg: Config, s: Shared, call: Call, input: Input): (Shared, Call)
    requires Accepts(call, input)
  {
    match call.pc
    case Enter =>
      (match TakeSticky(cfg, s, input.now)
       case None => (s, call.(pc := Try(call.initial)))
       case Some(local) => (s, call.(pc := RunSticky(local.0, local.1, input.now))))
    case RunSticky(stub, priority, readAt) =>
      var ran := call.(overall := input.code, log := call.log + [Sticky(stub, priority, input.code, readAt)]);
      if cfg.FailsOver(input.code) then (s, ran.(attempted := priority, pc := Clear(stub))) else (s, ran.(pc := Done))
    case Clear(stub) => (CompareAndClear(s, stub), call.(pc := Try(call.initial)))
    case Try(priority) =>
      if priority == Unknown then (s, call.(pc := Done))
      else if priority == call.attempted then (s, call.(pc := Try(Following(priority))))
      else if input.Made? then (s, call.(pc := RunFresh(input.stub, priority)))
      else
        var refused := call.(overall := input.code, log := call.log + [NotMade(priority, input.code)]);
        (s, refused.(pc := if cfg.FailsOver(input.code) then Try(Following(priority)) else Done))
    case RunFresh(stub, priority) =>
      var ran := call.(overall := input.code, log := call.log + [Fresh(stub, priority, input.code)]);
      (s, ran.(pc := if cfg.FailsOver(input.code) then Try(Following(priority)) else Store(stub, priority)))
    case Store(stub, priority) => (Install(stub, priority, input.now), call.(pc := Done))
    case Done => (s, call)
  }

  // ---- What one call guarantees, however other calls interfere --------------------------------------

  ghost predicate HasLabel(log: seq<Event>, priority: Label) {
    exists i :: 0 <= i < |log| && log[i].priority == priority
  }

  /** No endpoint is touched twice. */
  ghost predicate OncePerLabel(log: seq<Event>) {
    forall i, j :: 0 <= i < j < |log| ==> log[i].priority != log[j].priority
  }

  ghost predicate AllFailOver(cfg: Config, log: seq<Event>) {
    forall i :: 0 <= i < |log| ==> cfg.FailsOver(log[i].code)
  }

  /** Every label from initial up to, not including, `label` has been tried. */
  ghost predicate Covered(call: Call, priority: Label) {
    forall l: Label :: Rank(call.initial) <= Rank(l) < Rank(priority) ==> HasLabel(call.log, l)
  }

  /** Nothing has been tried yet from `label` on, except what the sticky attempt touched. */
  ghost predicate Untried(call: Call, priority: Label) {
    && (call.attempted != Unknown ==> HasLabel(call.log, call.attempted))
    && forall i :: 0 <= i < |call.log| ==>
      call.log[i].priority == call.attempted || Rank(call.log[i].priority) < Rank(priority)
  }

  /** No endpoint is tried after one that settled the call. */
  ghost predicate StopsWhenSettled(cfg: Config, log: seq<Event>) {
    forall i :: 0 <= i < |log| - 1 ==> cfg.FailsOver(log[i].code)
  }

  ghost predicate CallInvariant(cfg: Config, call: Call) {
    && OncePerLabel(call.log) && StopsWhenSettled(cfg, call.log)
    && call.overall == (if call.log == [] then OK else call.log[|call.log| - 1].code)
    && match call.pc
       case Enter => call.log == [] && call.attempted == Unknown
       case RunSticky(_, priority, _) => call.log == [] && call.attempted == Unknown && priority != Unknown
       case Clear(_) => AllFailOver(cfg, call.log) && Untried(call, call.initial)
       case Try(priority) => AllFailOver(cfg, call.log) && Untried(call, priority) && Covered(call, priority)
       case RunFresh(_, priority) =>
         AllFailOver(cfg, call.log) && Untried(call, priority) && Covered(call, priority) && priority != call.attempted
       case Store(stub, priority) =>
         call.log != [] && call.log[|call.log| - 1] == Fresh(stub, priority, call.overall)
           && !cfg.FailsOver(call.overall)
       case Done => cfg.FailsOver(call.overall) ==> Covered(call, Unknown)
  }

  /** A sticky attempt comes first; without one the first endpoint tried is the initial one. From
      there on endpoints are tried in the order of the labels. */
  ghost predicate InLabelOrder(call: Call) {
    && (forall i :: 1 <= i < |call.log| ==> !call.log[i].Sticky?)
    && (call.log != [] && !call.log[0].Sticky? ==> call.log[0].priority == call.initial)
    && forall i, j :: 0 <= i < j < |call.log| && !call.log[i].Sticky? ==>
         Rank(call.log[i].priority) < Rank(call.log[j].priority)
  }

  /** About to try `priority`: whatever was tried besides the sticky stub comes before it. */
  ghost predicate UpNext(call: Call, priority: Label) {
    && (call.attempted == Unknown <==> call.log == [] || !call.log[0].Sticky?)
    && (call.log == [] ==> priority == call.initial)
    && forall i :: 0 <= i < |call.log| && !call.log[i].Sticky? ==> Rank(call.log[i].priority) < Rank(priority)
  }

  ghost predicate Ordered(call: Call) {
    InLabelOrder(call) && match call.pc
      case Enter => call.log == [] && call.attempted == Unknown
      case RunSticky(_, priority, _) => call.log == [] && call.attempted == Unknown && priority != Unknown
      case Clear(_) => |call.log| == 1 && call.log[0].Sticky? && call.attempted != Unknown
      case Try(priority) => UpNext(call, priority)
      case RunFresh(_, endpoint) => UpNext(call, endpoint)
      case Store(_, _) => call.log != []
      case Done => call.log == [] ==> call.initial == Unknown
  }

  lemma StepKeepsOrdered(cfg: Config, s: Shared, call: Call, input: Input)
    requires Accepts(call, input) && NullIffUnknown(s) && Ordered(call)
    ensures Ordered(Step(cfg, s, call, input).1)
  {
  }

  lemma HasLabelAppend(log: seq<Event>, e: Event, l: Label)
    ensures HasLabel(log + [e], l) <==> HasLabel(log, l) || e.priority == l
  {
    if HasLabel(log, l) {
      var i :| 0 <= i < |log| && log[i].priority == l;
      assert (log + [e])[i].priority == l;
    }
    assert (log + [e])[|log|] == e;
  }

  /** Recording one more failing endpoint. */
  lemma RecordFailure(cfg: Config, call: Call, e: Event)
    requires OncePerLabel(call.log) && AllFailOver(cfg, call.log) && Untried(call, e.priority)
      && Covered(call, e.priority)
    requires e.priority != Unknown && e.priority != call.attempted
    ensures OncePerLabel(call.log + [e]) && StopsWhenSettled(cfg, call.log + [e])
    ensures cfg.FailsOver(e.code) ==>
      var next := call.(log := call.log + [e]);
      AllFailOver(cfg, next.log) && Untried(next, Following(e.priority)) && Covered(next, Following(e.priority))
  {
    forall l: Label ensures HasLabel(call.log + [e], l) <==> HasLabel(call.log, l) || e.priority == l {
      HasLabelAppend(call.log, e, l);
    }
  }

  lemma StickyRan(cfg: Config, s: Shared, call: Call, input: Input)
    requires Accepts(call, input) && CallInvariant(cfg, call) && call.pc.RunSticky?
    ensures CallInvariant(cfg, Step(cfg, s, call, input).1)
  {
    var e := Sticky(call.pc.stub, call.pc.priority, input.code, call.pc.readAt);
    forall l: Label ensures HasLabel(call.log + [e], l) <==> e.priority == l { HasLabelAppend(call.log, e, l); }
  }

  lemma FreshTried(cfg: Config, s: Shared, call: Call, input: Input)
    requires Accepts(call, input) && CallInvariant(cfg, call) && (call.pc.Try? || call.pc.RunFresh?)
    ensures CallInvariant(cfg, Step(cfg, s, call, input).1)
  {
    var l := if call.pc.Try? then call.pc.priority else call.pc.endpoint;
    if call.pc.RunFresh? {
      RecordFailure(cfg, call, Fresh(call.pc.stub, l, input.code));
    } else if input.Refused? {
      RecordFailure(cfg, call, NotMade(l, input.code));
    }
  }

  lemma StepKeepsCall(cfg: Config, s: Shared, call: Call, input: Input)
    requires Accepts(call, input) && NullIffUnknown(s) && CallInvariant(cfg, call)
    ensures CallInvariant(cfg, Step(cfg, s, call, input).1)
  {
    match call.pc
    case RunSticky(_, _, _) => StickyRan(cfg, s, call, input);
    case Try(_) => FreshTried(cfg, s, call, input);
    case RunFresh(_, _) => FreshTried(cfg, s, call, input);
    case _ =>
  }

  // ---- Any number of calls at once ------------------------------------------------------------------

  /** One write to active_stub_: by the constructor, or by the call of that index. */
  datatype Installation = Installation(stub: StubId, priority: Endpoint, time: int, caller: Option<nat>)

  /** installs and cleared are history: the stubs stored so far, and those a call has run on from the
      sticky path, found failing, and taken past its compare-and-clear. */
  datatype System = System(shared: Shared, calls: seq<Call>, nextStub: StubId, installs: seq<Installation>,
                           cleared: set<StubId>)

  /** The constructor, whose factory call for the primary may fail. */
  function Construct(primary: Option<int>): System {
    match primary
    case None => System(Shared(None, Unknown, 0), [], 0, [], {})
    case Some(now) => System(Install(0, Primary, now), [], 1, [Installation(0, Primary, now, None)], {})
  }

  datatype Action = Arrive(initial: Label) | Act(i: nat, input: Input)

  /** The factory returns fresh stubs. */
  predicate Enabled(y: System, action: Action) {
    match action
    case Arrive(_) => true
    case Act(i, input) => i < |y.calls| && Accepts(y.calls[i], input) && (input.Made? ==> input.stub == y.nextStub)
  }

  function Next(cfg: Config, y: System, action: Action): System
    requires Enabled(y, action)
  {
    match action
    case Arrive(initial) => y.(calls := y.calls + [Begin(initial)])
    case Act(i, input) =>
      var call := y.calls[i];
      var (shared, call') := Step(cfg, y.shared, call, input);
      System(shared, y.calls[i := call'],
             if input.Made? then y.nextStub + 1 else y.nextStub,
             if call.pc.Store? then y.installs + [Installation(call.pc.stub, call.pc.endpoint, input.now, Some(i))]
               else y.installs,
             if call.pc.Clear? then y.cleared + {call.pc.stub} else y.cleared)
  }

  ghost predicate Installed(installs: seq<Installation>, stub: StubId) {
    exists k :: 0 <= k < |installs| && installs[k].stub == stub
  }

  /** What the active stub is: the most recent installation, with its label and time. */
  ghost predicate ActiveIsNewest(y: System) {
    y.shared.active.Some? ==>
      && y.installs != []
      && var last := y.installs[|y.installs| - 1];
         y.shared == Shared(Some(last.stub), last.priority, last.time) && last.stub !in y.cleared
  }

  /** A new stub still in the hands of the call it was made for. */
  function Held(call: Call): Option<StubId> {
    if call.pc.RunFresh? || call.pc.Store? then Some(call.pc.stub) else None
  }

  /** Such stubs are nobody else's and not installed. */
  ghost predicate HeldStubsFresh(y: System) {
    && (forall k :: 0 <= k < |y.installs| ==> y.installs[k].stub < y.nextStub)
    && (forall i :: 0 <= i < |y.calls| && Held(y.calls[i]).Some? ==>
          StillNew(y.installs, y.nextStub, Held(y.calls[i]).value))
    && (forall i, j :: 0 <= i < j < |y.calls| && Held(y.calls[i]).Some? ==> Held(y.calls[i]) != Held(y.calls[j]))
  }

  ghost predicate StillNew(installs: seq<Installation>, nextStub: StubId, stub: StubId) {
    stub < nextStub && !Installed(installs, stub)
  }

  /** Sticky runs are on stubs that were installed, and a secondary one only while fresh. */
  ghost predicate StickyRunsFresh(cfg: Config, y: System) {
    && (forall stub :: stub in y.cleared ==> Installed(y.installs, stub))
    && (forall i :: 0 <= i < |y.calls| ==> StickyRunFresh(cfg, y.installs, y.calls[i]))
  }

  ghost predicate StickyRunFresh(cfg: Config, installs: seq<Installation>, call: Call) {
    && (call.pc.RunSticky? ==> FreshWhenRead(cfg, installs, call.pc.stub, call.pc.priority, call.pc.readAt))
    && (call.pc.Clear? ==> Installed(installs, call.pc.stub))
    && (forall e :: e in call.log && e.Sticky? ==> FreshWhenRead(cfg, installs, e.stub, e.priority, e.readAt))
  }

  /** The stub was installed for that label, and unless primary its refresh window was open. */
  ghost predicate FreshWhenRead(cfg: Config, installs: seq<Installation>, stub: StubId, priority: Label, readAt: int) {
    exists k :: 0 <= k < |installs| && installs[k].stub == stub && installs[k].priority == priority
      && (readAt < installs[k].time + cfg.refresh || priority == Primary)
  }

  /** The stub was installed, and less than the refresh window before `readAt`. */
  ghost predicate InsideWindow(cfg: Config, installs: seq<Installation>, stub: StubId, readAt: int) {
    exists k :: 0 <= k < |installs| && installs[k].stub == stub && readAt < installs[k].time + cfg.refresh
  }

  /** No stub is installed twice, and each one by the constructor or by a call whose func returned on
      it OK or a code that does not fail over. */
  ghost predicate InstallsEarned(cfg: Config, y: System) {
    && (forall k, m :: 0 <= k < m < |y.installs| ==> y.installs[k].stub != y.installs[m].stub)
    && (forall k :: 0 <= k < |y.installs| && y.installs[k].caller.None? ==> k == 0 && y.installs[k].priority == Primary)
    && (forall k :: 0 <= k < |y.installs| && y.installs[k].caller.Some? ==> Earned(cfg, y.calls, y.installs[k]))
  }

  predicate EarnedBy(cfg: Config, made: Installation, e: Event) {
    e.Fresh? && e.stub == made.stub && e.priority == made.priority && !cfg.FailsOver(e.code)
  }

  ghost predicate Earned(cfg: Config, calls: seq<Call>, made: Installation) {
    && made.caller.Some? && made.caller.value < |calls|
    && exists e :: e in calls[made.caller.value].log && EarnedBy(cfg, made, e)
  }

  /** A new stub that settled its call was installed, or is about to be. */
  ghost predicate SettledInstalled(cfg: Config, y: System) {
    forall i :: 0 <= i < |y.calls| && y.calls[i].pc.Done? && SettledOnFresh(cfg, y.calls[i]) ==>
      Installed(y.installs, y.calls[i].log[|y.calls[i].log| - 1].stub)
  }

  predicate SettledOnFresh(cfg: Config, call: Call) {
    call.log != [] && call.log[|call.log| - 1].Fresh? && !cfg.FailsOver(call.log[|call.log| - 1].code)
  }

  ghost predicate Invariant(cfg: Config, y: System) {
    && SettledInstalled(cfg, y)
    && NullIffUnknown(y.shared) && ActiveIsNewest(y) && HeldStubsFresh(y)
    && StickyRunsFresh(cfg, y) && InstallsEarned(cfg, y)
    && forall i :: 0 <= i < |y.calls| ==> CallInvariant(cfg, y.calls[i]) && Ordered(y.calls[i])
  }

  lemma ConstructInvariant(cfg: Config, primary: Option<int>)
    ensures Invariant(cfg, Construct(primary))
  {
  }

  lemma MoreInstalls(cfg: Config, installs: seq<Installation>, installs': seq<Installation>, call: Call)
    requires installs <= installs' && StickyRunFresh(cfg, installs, call)
    ensures StickyRunFresh(cfg, installs', call)
  {
    forall e | e in call.log && e.Sticky? ensures FreshWhenRead(cfg, installs', e.stub, e.priority, e.readAt) {
      StaysFresh(cfg, installs, installs', e.stub, e.priority, e.readAt);
    }
    if call.pc.RunSticky? { StaysFresh(cfg, installs, installs', call.pc.stub, call.pc.priority, call.pc.readAt); }
    if call.pc.Clear? { StaysInstalled(installs, installs', call.pc.stub); }
  }

  lemma StaysInstalled(installs: seq<Installation>, installs': seq<Installation>, stub: StubId)
    requires installs <= installs' && Installed(installs, stub)
    ensures Installed(installs', stub)
  {
    var k :| 0 <= k < |installs| && installs[k].stub == stub;
    assert installs'[k].stub == stub;
  }

  lemma StaysFresh(cfg: Config, installs: seq<Installation>, installs': seq<Installation>, stub: StubId, p: Label,
                   t: int)
    requires installs <= installs' && FreshWhenRead(cfg, installs, stub, p, t)
    ensures FreshWhenRead(cfg, installs', stub, p, t) && Installed(installs', stub)
  {
    var k :| 0 <= k < |installs| && installs[k].stub == stub && installs[k].priority == p
      && (t < installs[k].time + cfg.refresh || p == Primary);
    assert installs'[k].stub == stub;
  }

  lemma ActKeepsActive(cfg: Config, y: System, i: nat, input: Input)
    requires Enabled(y, Act(i, input)) && NullIffUnknown(y.shared) && ActiveIsNewest(y)
    requires HeldStubsFresh(y) && StickyRunsFresh(cfg, y)
    ensures var y' := Next(cfg, y, Act(i, input)); NullIffUnknown(y'.shared) && ActiveIsNewest(y')
  {
    var call := y.calls[i];
    if call.pc.Store? {
      assert StillNew(y.installs, y.nextStub, Held(call).value);
    }
  }

  lemma ActKeepsHeld(cfg: Config, y: System, i: nat, input: Input)
    requires Enabled(y, Act(i, input)) && HeldStubsFresh(y)
    ensures HeldStubsFresh(Next(cfg, y, Act(i, input)))
  {
    var y', call := Next(cfg, y, Act(i, input)), y.calls[i];
    assert call.pc.Store? ==> StillNew(y.installs, y.nextStub, Held(call).value);
    forall j | 0 <= j < |y'.calls| && Held(y'.calls[j]).Some?
      ensures StillNew(y'.installs, y'.nextStub, Held(y'.calls[j]).value)
    {
      var stub := Held(y'.calls[j]).value;
      if Held(y.calls[j]) == Some(stub) {
        assert StillNew(y.installs, y.nextStub, stub);
        if call.pc.Store? { assert j != i && Held(call) != Some(stub); }
      }
    }
  }

  lemma ActKeepsSticky(cfg: Config, y: System, i: nat, input: Input)
    requires Enabled(y, Act(i, input)) && ActiveIsNewest(y) && StickyRunsFresh(cfg, y)
    ensures StickyRunsFresh(cfg, Next(cfg, y, Act(i, input)))
  {
    var y', call := Next(cfg, y, Act(i, input)), y.calls[i];
    forall stub | stub in y'.cleared ensures Installed(y'.installs, stub) {
      assert StickyRunFresh(cfg, y.installs, call);
      StaysInstalled(y.installs, y'.installs, stub);
    }
    forall j | 0 <= j < |y'.calls| ensures StickyRunFresh(cfg, y'.installs, y'.calls[j]) {
      assert StickyRunFresh(cfg, y.installs, y.calls[j]);
      MoreInstalls(cfg, y.installs, y'.installs, y.calls[j]);
      if j == i { ActingStickyRun(cfg, y, i, input); }
    }
  }

  lemma ActingStickyRun(cfg: Config, y: System, i: nat, input: Input)
    requires Enabled(y, Act(i, input)) && ActiveIsNewest(y)
    requires StickyRunFresh(cfg, Next(cfg, y, Act(i, input)).installs, y.calls[i])
    ensures var y' := Next(cfg, y, Act(i, input)); StickyRunFresh(cfg, y'.installs, y'.calls[i])
  {
    var y' := Next(cfg, y, Act(i, input));
    var call, call' := y.calls[i], y'.calls[i];
    if call'.pc.RunSticky? {
      assert y'.installs[|y.installs| - 1].stub == call'.pc.stub;
    }
    if call.pc.RunSticky? {
      StaysFresh(cfg, y'.installs, y'.installs, call.pc.stub, call.pc.priority, call.pc.readAt);
    }
  }

  lemma ActKeepsEarned(cfg: Config, y: System, i: nat, input: Input)
    requires Enabled(y, Act(i, input)) && HeldStubsFresh(y) && InstallsEarned(cfg, y)
    requires CallInvariant(cfg, y.calls[i])
    ensures InstallsEarned(cfg, Next(cfg, y, Act(i, input)))
  {
    var y', call := Next(cfg, y, Act(i, input)), y.calls[i];
    forall k | 0 <= k < |y'.installs| && y'.installs[k].caller.Some? ensures Earned(cfg, y'.calls, y'.installs[k]) {
      if k < |y.installs| {
        assert Earned(cfg, y.calls, y.installs[k]);
      } else {
        assert call.log[|call.log| - 1] in y'.calls[i].log;
      }
    }
    if call.pc.Store? {
      assert StillNew(y.installs, y.nextStub, Held(call).value);
    }
  }

  lemma ActKeepsSettled(cfg: Config, y: System, i: nat, input: Input)
    requires Enabled(y, Act(i, input)) && SettledInstalled(cfg, y) && CallInvariant(cfg, y.calls[i])
    ensures SettledInstalled(cfg, Next(cfg, y, Act(i, input)))
  {
    var y', call := Next(cfg, y, Act(i, input)), y.calls[i];
    forall j | 0 <= j < |y'.calls| && y'.calls[j].pc.Done? && SettledOnFresh(cfg, y'.calls[j])
      ensures Installed(y'.installs, y'.calls[j].log[|y'.calls[j].log| - 1].stub)
    {
      if j != i {
        StaysInstalled(y.installs, y'.installs, y.calls[j].log[|y.calls[j].log| - 1].stub);
      } else if call.pc.Store? {
        assert y'.installs[|y.installs|].stub == call.pc.stub;
      }
    }
  }

  /** Every step of every interleaving keeps the invariant. */
  lemma NextKeepsInvariant(cfg: Config, y: System, action: Action)
    requires Enabled(y, action) && Invariant(cfg, y)
    ensures Invariant(cfg, Next(cfg, y, action))
  {
    match action
    case Arrive(initial) => ArriveKeepsInvariant(cfg, y, initial);
    case Act(i, input) =>
      ActKeepsActive(cfg, y, i, input);
      ActKeepsHeld(cfg, y, i, input);
      ActKeepsSticky(cfg, y, i, input);
      ActKeepsEarned(cfg, y, i, input);
      ActKeepsSettled(cfg, y, i, input);
      StepKeepsCall(cfg, y.shared, y.calls[i], input);
      StepKeepsOrdered(cfg, y.shared, y.calls[i], input);
  }

  lemma ArriveKeepsInvariant(cfg: Config, y: System, initial: Label)
    requires Invariant(cfg, y)
    ensures Invariant(cfg, Next(cfg, y, Arrive(initial)))
  {
    ArriveKeepsHistory(cfg, y, initial);
    ArriveKeepsHeld(cfg, y, initial);
    ArriveKeepsCalls(cfg, y, initial);
  }

  lemma ArriveKeepsHeld(cfg: Config, y: System, initial: Label)
    requires HeldStubsFresh(y)
    ensures HeldStubsFresh(Next(cfg, y, Arrive(initial)))
  {
  }

  lemma ArriveKeepsCalls(cfg: Config, y: System, initial: Label)
    requires SettledInstalled(cfg, y)
    requires forall i :: 0 <= i < |y.calls| ==> CallInvariant(cfg, y.calls[i]) && Ordered(y.calls[i])
    ensures var y' := Next(cfg, y, Arrive(initial));
      && SettledInstalled(cfg, y')
      && forall i :: 0 <= i < |y'.calls| ==> CallInvariant(cfg, y'.calls[i]) && Ordered(y'.calls[i])
  {
  }

  lemma ArriveKeepsHistory(cfg: Config, y: System, initial: Label)
    requires StickyRunsFresh(cfg, y) && InstallsEarned(cfg, y)
    ensures var y' := Next(cfg, y, Arrive(initial)); StickyRunsFresh(cfg, y') && InstallsEarned(cfg, y')
  {
    var y' := Next(cfg, y, Arrive(initial));
    forall k | 0 <= k < |y'.installs| && y'.installs[k].caller.Some? ensures Earned(cfg, y'.calls, y'.installs[k]) {
      assert Earned(cfg, y.calls, y.installs[k]);
    }
    forall j | 0 <= j < |y'.calls| ensures StickyRunFresh(cfg, y'.installs, y'.calls[j]) {
      if j < |y.calls| { assert StickyRunFresh(cfg, y.installs, y.calls[j]); }
    }
  }

  /** A run: what the constructor leaves, then any interleaving of arrivals and steps. */
  ghost predicate IsRun(cfg: Config, run: seq<System>) {
    && run != []
    && (exists primary: Option<int> :: run[0] == Construct(primary))
    && forall t :: 0 <= t < |run| - 1 ==> Leads(cfg, run[t], run[t + 1])
  }

  ghost predicate Leads(cfg: Config, y: System, y': System) {
    exists action :: Enabled(y, action) && y' == Next(cfg, y, action)
  }

  lemma {:induction false} RunInvariant(cfg: Config, run: seq<System>, t: nat)
    requires IsRun(cfg, run) && t < |run|
    ensures Invariant(cfg, run[t])
  {
    if t == 0 {
      var primary :| run[0] == Construct(primary);
      ConstructInvariant(cfg, primary);
    } else {
      RunInvariant(cfg, run, t - 1);
      assert Leads(cfg, run[t - 1], run[t - 1 + 1]);
      var action :| Enabled(run[t - 1], action) && run[t] == Next(cfg, run[t - 1], action);
      NextKeepsInvariant(cfg, run[t - 1], action);
    }
  }

  lemma {:induction false} ClearedGrows(cfg: Config, run: seq<System>, t: nat, u: nat)
    requires IsRun(cfg, run) && t <= u < |run|
    ensures run[t].cleared <= run[u].cleared
  {
    if t < u {
      ClearedGrows(cfg, run, t, u - 1);
      assert Leads(cfg, run[u - 1], run[u - 1 + 1]);
    }
  }

  /** At every point of every run: the active stub is null exactly when its label is Unknown; every
      stub was installed at most once, by the constructor or by a call whose func had returned on it
      OK or a code that does not fail over, and each new stub that so settled a finished call was
      installed; and a stub that some call found failing on the sticky path is, from that call's
      compare-and-clear on, never active again. */
  lemma EveryInterleaving(cfg: Config, run: seq<System>, t: nat, u: nat)
    requires IsRun(cfg, run) && t <= u < |run|
    ensures run[u].shared.active.None? <==> run[u].shared.priority == Unknown
    ensures InstallsEarned(cfg, run[u]) && SettledInstalled(cfg, run[u])
    ensures forall stub :: stub in run[t].cleared ==> run[u].shared.active != Some(stub)
  {
    RunInvariant(cfg, run, u);
    ClearedGrows(cfg, run, t, u);
  }

  /** At every point of every run, whatever the other calls do: a call runs func at most once per
      label, the sticky stub first and then in label order from its initial one on, and nothing after
      an endpoint that settled it; the status of a finished one is that of the last
      endpoint it touched, and a status that fails over means every label from its initial one on was
      tried. A secondary stub was run sticky only if the clock, read under the lock, was before that
      stub's installation time plus the refresh window. */
  lemma EveryCall(cfg: Config, run: seq<System>, u: nat, i: nat)
    requires IsRun(cfg, run) && u < |run| && i < |run[u].calls|
    ensures var call := run[u].calls[i];
      && OncePerLabel(call.log) && InLabelOrder(call)
      && (forall k :: 0 <= k < |call.log| - 1 ==> call.log[k].code != 0 && call.log[k].code in cfg.failoverCodes)
      && (call.log != [] ==> call.overall == call.log[|call.log| - 1].code)
      && (call.pc.Done? && call.overall != 0 && call.overall in cfg.failoverCodes ==> Covered(call, Unknown))
    ensures forall e :: e in run[u].calls[i].log && e.Sticky? && e.priority == Secondary ==>
      InsideWindow(cfg, run[u].installs, e.stub, e.readAt)
  {
    RunInvariant(cfg, run, u);
    var y := run[u];
    assert StickyRunFresh(cfg, y.installs, y.calls[i]);
    forall e | e in y.calls[i].log && e.Sticky? && e.priority == Secondary
      ensures InsideWindow(cfg, y.installs, e.stub, e.readAt)
    {
      assert FreshWhenRead(cfg, y.installs, e.stub, e.priority, e.readAt);
    }
  }

  /** In every run a call starts on the active stub, the one installed last, exactly when the clock
      read under the lock is before that stub's installation time plus the refresh window, or the stub
      is the primary one; otherwise it starts with its initial label. */
  lemma EveryEntry(cfg: Config, run: seq<System>, t: nat, i: nat, now: int)
    requires IsRun(cfg, run) && t < |run| && i < |run[t].calls| && run[t].calls[i].pc.Enter?
    ensures var y, next := run[t], Next(cfg, run[t], Act(i, Clock(now)));
      && next.shared == y.shared
      && (y.shared.active.None? ==> next.calls[i].pc == Try(y.calls[i].initial))
      && (y.shared.active.Some? ==>
            && y.installs != []
            && var last := y.installs[|y.installs| - 1];
               && y.shared.active == Some(last.stub)
               && next.calls[i].pc ==
                    if now < last.time + cfg.refresh || last.priority == Primary
                    then RunSticky(last.stub, last.priority, now) else Try(y.calls[i].initial))
  {
    RunInvariant(cfg, run, t);
  }

  lemma ClearSpares(cfg: Config, y: System, i: nat, stub: StubId)
    requires ActiveIsNewest(y) && i < |y.calls| && y.calls[i].pc == Clear(stub)
    requires StickyRunFresh(cfg, y.installs, y.calls[i])
    ensures Installed(y.installs, stub) && y.installs != []
    ensures y.installs[|y.installs| - 1].stub != stub ==> Next(cfg, y, Act(i, Silent)).shared == y.shared
    ensures Next(cfg, y, Act(i, Silent)).shared.active != Some(stub)
  {
    assert Next(cfg, y, Act(i, Silent)).shared == CompareAndClear(y.shared, stub);
  }

  /** The compare-and-clear of a call that ran on `stub` never removes a stub installed after it. */
  lemma ClearSparesNewerStubs(cfg: Config, y: System, i: nat, stub: StubId)
    requires Invariant(cfg, y) && i < |y.calls| && y.calls[i].pc == Clear(stub)
    ensures Installed(y.installs, stub) && y.installs != []
    ensures y.installs[|y.installs| - 1].stub != stub ==> Next(cfg, y, Act(i, Silent)).shared == y.shared
    ensures Next(cfg, y, Act(i, Silent)).shared.active != Some(stub)
  {
    ClearSpares(cfg, y, i, stub);
  }

  // ---- One call on its own ---------------------------------------------------------------------------

  type Failure = c: Code | c != OK witness 1
  datatype FactoryResult = Hands(stub: StubId) | Fails(code: Failure)

  /** The outcomes one call meets: what func returns, what the factory does, what the clock reads. */
  datatype World = World(run: (StubId, Label) -> Code, make: Label -> FactoryResult, readAt: int, storeAt: int)

  function InputFor(world: World, call: Call): (input: Input)
    ensures !call.pc.Done? ==> Accepts(call, input)
  {
    match call.pc
    case Enter => Clock(world.readAt)
    case RunSticky(stub, priority, _) => Returned(world.run(stub, priority))
    case Try(priority) =>
      if priority == Unknown || priority == call.attempted then Silent
      else (match world.make(priority) case Hands(stub) => Made(stub) case Fails(code) => Refused(code))
    case RunFresh(stub, endpoint) => Returned(world.run(stub, endpoint))
    case Store(_, _) => Clock(world.storeAt)
    case _ => Silent
  }

  function StepsLeft(pc: Control): nat {
    match pc
    case Enter => 9
    case RunSticky(_, _, _) => 8
    case Clear(_) => 7
    case Try(priority) => 6 - 2 * Rank(priority)
    case RunFresh(_, endpoint) => 5 - 2 * Rank(endpoint)
    case Store(_, _) => 1
    case Done => 0
  }

  /** The call run to its end without interference. */
  function Finish(cfg: Config, s: Shared, call: Call, world: World): (Shared, Call)
    decreases StepsLeft(call.pc)
  {
    if call.pc.Done? then (s, call)
    else
      var (s', call') := Step(cfg, s, call, InputFor(world, call));
      Finish(cfg, s', call', world)
  }

  /** All that is known of a call between two steps. */
  ghost predicate Sound(cfg: Config, s: Shared, call: Call) {
    NullIffUnknown(s) && CallInvariant(cfg, call) && Ordered(call)
  }

  lemma StepKeepsSound(cfg: Config, s: Shared, call: Call, input: Input)
    requires Accepts(call, input) && Sound(cfg, s, call)
    ensures var (s', call') := Step(cfg, s, call, input); Sound(cfg, s', call') && call'.initial == call.initial
  {
    StepKeepsCall(cfg, s, call, input);
    StepKeepsOrdered(cfg, s, call, input);
  }

  lemma {:induction false} FinishKeepsCall(cfg: Config, s: Shared, call: Call, world: World)
    requires Sound(cfg, s, call)
    ensures var (s', call') := Finish(cfg, s, call, world);
      call'.pc.Done? && call'.initial == call.initial && Sound(cfg, s', call')
    decreases StepsLeft(call.pc)
  {
    if !call.pc.Done? {
      StepKeepsSound(cfg, s, call, InputFor(world, call));
      var (s', call') := Step(cfg, s, call, InputFor(world, call));
      FinishKeepsCall(cfg, s', call', world);
    }
  }

  // ---- The record of one call, and what it leaves ----------------------------------------------------

  /** The event is what the factory and func did for its label. */
  ghost predicate TrueTo(world: World, e: Event) {
    match e
    case Sticky(stub, priority, code, readAt) => code == world.run(stub, priority) && readAt == world.readAt
    case Fresh(stub, priority, code) => world.make(priority) == Hands(stub) && code == world.run(stub, priority)
    case NotMade(priority, code) => world.make(priority).Fails? && world.make(priority).code == code
  }

  ghost predicate AllTrueTo(world: World, log: seq<Event>) { forall e :: e in log ==> TrueTo(world, e) }

  /** What a call leaves behind whose attempts from index k on were on new stubs: the stub of a last
      attempt that settled it, installed when the clock read storeAt; otherwise what it found. */
  ghost predicate Leaves(cfg: Config, world: World, s: Shared, log: seq<Event>, k: nat, s': Shared) {
    if |log| > k && log[|log| - 1].Fresh? && !cfg.FailsOver(log[|log| - 1].code) then
      s' == Shared(Some(log[|log| - 1].stub), log[|log| - 1].priority, world.storeAt)
    else s' == s
  }

  /** A sticky attempt is on the active stub, which stays when it settled the call and else is dropped
      first. From s to s' nothing but that and the last attempt counts. */
  ghost predicate Outcome(cfg: Config, world: World, s: Shared, log: seq<Event>, s': Shared) {
    if log == [] || !log[0].Sticky? then Leaves(cfg, world, s, log, 0, s')
    else
      && Some(log[0].stub) == s.active && log[0].priority == s.priority
      && if cfg.FailsOver(log[0].code) then Leaves(cfg, world, Shared(None, Unknown, s.freshness), log, 1, s')
         else |log| == 1 && s' == s
  }

  lemma TryRun(cfg: Config, s: Shared, call: Call, world: World)
    requires call.pc.Try? && call.pc.priority != Unknown && call.pc.priority != call.attempted
    ensures var p := call.pc.priority;
      var e := match world.make(p)
        case Fails(code) => NotMade(p, code)
        case Hands(stub) => Fresh(stub, p, world.run(stub, p));
      var tried := call.(log := call.log + [e], overall := e.code);
      && TrueTo(world, e) && e.priority == p && !e.Sticky?
      && Finish(cfg, s, call, world) ==
           if cfg.FailsOver(e.code) then Finish(cfg, s, tried.(pc := Try(Following(p))), world)
           else (if e.Fresh? then Shared(Some(e.stub), p, world.storeAt) else s, tried.(pc := Done))
  {
    var p := call.pc.priority;
    if world.make(p).Hands? {
      var stub := world.make(p).stub;
      var made := call.(pc := RunFresh(stub, p));
      var code := world.run(stub, p);
      var ran := made.(overall := code, log := call.log + [Fresh(stub, p, code)]);
      assert Finish(cfg, s, call, world) == Finish(cfg, s, made, world);
      if !cfg.FailsOver(code) {
        var storing, stored := ran.(pc := Store(stub, p)), Shared(Some(stub), p, world.storeAt);
        assert Finish(cfg, s, made, world) == Finish(cfg, s, storing, world);
        assert Finish(cfg, s, storing, world) == Finish(cfg, stored, ran.(pc := Done), world);
        assert ran.(pc := Done) == call.(overall := code, log := ran.log, pc := Done);
      } else {
        assert ran.(pc := Try(Following(p))) == call.(overall := code, log := ran.log, pc := Try(Following(p)));
        assert Finish(cfg, s, made, world) == Finish(cfg, s, ran.(pc := Try(Following(p))), world);
      }
    }
  }

  lemma {:induction false} TriesLeave(cfg: Config, s: Shared, call: Call, world: World)
    requires call.pc.Try? && AllTrueTo(world, call.log)
    ensures var (s', call') := Finish(cfg, s, call, world);
      && call.log <= call'.log && AllTrueTo(world, call'.log)
      && (forall i :: |call.log| <= i < |call'.log| ==> !call'.log[i].Sticky?)
      && Leaves(cfg, world, s, call'.log, |call.log|, s')
    decreases StepsLeft(call.pc)
  {
    var p := call.pc.priority;
    if p != Unknown {
      if p == call.attempted {
        TriesLeave(cfg, s, call.(pc := Try(Following(p))), world);
      } else {
        TryRun(cfg, s, call, world);
        var made := world.make(p);
        var e := if made.Fails? then NotMade(p, made.code) else Fresh(made.stub, p, world.run(made.stub, p));
        if cfg.FailsOver(e.code) {
          TriesLeave(cfg, s, call.(log := call.log + [e], overall := e.code, pc := Try(Following(p))), world);
        }
      }
    }
  }

  lemma SameOrder(call: Call)
    requires InLabelOrder(call)
    ensures InLabelOrder(Call(Done, call.initial, Unknown, call.overall, call.log))
  {
  }

  /** A call on its own, told by its record alone. */
  lemma WholeCall(cfg: Config, s: Shared, initial: Label, world: World)
    requires NullIffUnknown(s)
    ensures var (s', call) := Finish(cfg, s, Begin(initial), world);
      && AllTrueTo(world, call.log)
      && ((call.log != [] && call.log[0].Sticky?) <==>
            s.active.Some? && (world.readAt < s.freshness + cfg.refresh || s.priority == Primary))
      && Outcome(cfg, world, s, call.log, s')
  {
    var call := Begin(initial);
    var sticky := TakeSticky(cfg, s, world.readAt);
    if sticky.None? {
      TriesLeave(cfg, s, call.(pc := Try(initial)), world);
    } else {
      StickyCall(cfg, s, initial, world);
    }
  }

  lemma StickyCall(cfg: Config, s: Shared, initial: Label, world: World)
    requires s.active.Some? && (world.readAt < s.freshness + cfg.refresh || s.priority == Primary)
    ensures var (s', call) := Finish(cfg, s, Begin(initial), world);
      var e := Sticky(s.active.value, s.priority, world.run(s.active.value, s.priority), world.readAt);
      && call.log != [] && call.log[0] == e && AllTrueTo(world, call.log)
      && if cfg.FailsOver(e.code) then Leaves(cfg, world, Shared(None, Unknown, s.freshness), call.log, 1, s')
         else call.log == [e] && s' == s
  {
    var stub, p := s.active.value, s.priority;
    var code := world.run(stub, p);
    var call := Begin(initial);
    var running := call.(pc := RunSticky(stub, p, world.readAt));
    assert Finish(cfg, s, call, world) == Finish(cfg, s, running, world);
    var ran := running.(overall := code, log := [Sticky(stub, p, code, world.readAt)]);
    assert [] + ran.log == ran.log;
    if cfg.FailsOver(code) {
      var clearing := ran.(attempted := p, pc := Clear(stub));
      assert Finish(cfg, s, running, world) == Finish(cfg, s, clearing, world);
      var cleared := Shared(None, Unknown, s.freshness);
      assert Finish(cfg, s, clearing, world) == Finish(cfg, cleared, clearing.(pc := Try(initial)), world);
      TriesLeave(cfg, cleared, clearing.(pc := Try(initial)), world);
    }
  }

  /** The critical section of Manual: switch to the asked label unless it is already active. */
  function ManualSwitch(s: Shared, priority: Label, made: FactoryResult, now: int): Shared {
    if s.priority == priority then s
    else match made
      case Hands(stub) => Install(stub, priority, now)
      case Fails(_) => s.(active := None, priority := Unknown)
  }

  /** Exactly when Manual keeps the stub null iff its label is Unknown: it does not when it is asked
      for the label Unknown while a stub is active and the factory obliges. */
  lemma ManualKeepsNullIffUnknown(s: Shared, priority: Label, made: FactoryResult, now: int)
    requires NullIffUnknown(s)
    ensures NullIffUnknown(ManualSwitch(s, priority, made, now)) <==>
      priority != Unknown || s.active.None? || made.Fails?
  {
  }

  /** StubArbiter<T>, for one caller at a time. */
  class Arbiter {
    const cfg: Config
    var activeStub: Option<StubId>
    var activeStubLabel: Label
    var freshnessTime: int

    ghost function Value(): Shared
      reads this
    {
      Shared(activeStub, activeStubLabel, freshnessTime)
    }

    constructor (cfg: Config, primary: FactoryResult, now: int)
      ensures this.cfg == cfg && NullIffUnknown(Value())
      ensures primary.Hands? ==> activeStub == Some(primary.stub) && activeStubLabel == Primary && freshnessTime == now
      ensures primary.Fails? ==> activeStub == None && activeStubLabel == Unknown
    {
      this.cfg := cfg;
      activeStub, activeStubLabel, freshnessTime := None, Unknown, 0;
      if primary.Hands? {
        activeStub, activeStubLabel, freshnessTime := Some(primary.stub), Primary, now;
      }
    }

    /** Failover: the record of the call is the one its control program produces, and so it satisfies
        everything CallInvariant says. */
    method Failover(world: World, initial: Label) returns (overall: Code, log: seq<Event>)
      requires NullIffUnknown(Value())
      modifies this
      ensures var (s, call) := Finish(cfg, old(Value()), Begin(initial), world);
        Value() == s && overall == call.overall && log == call.log
      ensures NullIffUnknown(Value()) && OncePerLabel(log)
      ensures cfg.FailsOver(overall) ==>
        forall l: Label :: l != Unknown && Rank(initial) <= Rank(l) ==> HasLabel(log, l)
      ensures AllTrueTo(world, log) && InLabelOrder(Call(Done, initial, Unknown, overall, log))
      ensures (log != [] && log[0].Sticky?) <==>
        && old(activeStub).Some?
        && (world.readAt < old(freshnessTime) + cfg.refresh || old(activeStubLabel) == Primary)
      ensures log == [] ==> initial == Unknown
      ensures Outcome(cfg, world, old(Value()), log, Value())
    {
      FinishKeepsCall(cfg, Value(), Begin(initial), world);
      SameOrder(Finish(cfg, Value(), Begin(initial), world).1);
      WholeCall(cfg, Value(), initial, world);
      ghost var goal := Finish(cfg, Value(), Begin(initial), world);
      overall, log := OK, [];
      var attempted := Unknown;
      if activeStub.Some? && (world.readAt < freshnessTime + cfg.refresh || activeStubLabel == Primary) {
        var localStub, localLabel := activeStub.value, activeStubLabel;
        overall := world.run(localStub, localLabel);
        log := log + [Sticky(localStub, localLabel, overall, world.readAt)];
        if !cfg.FailsOver(overall) {
          return;
        }
        attempted := localLabel;
        if activeStub == Some(localStub) {
          activeStub, activeStubLabel := None, Unknown;
        }
      }
      overall, log := FailoverLoop(world, initial, attempted, overall, log);
    }

    /** Manual, up to the end of its critical section: the stub func will run on, or the factory's error. */
    method ManualAcquire(world: World, priority: Label) returns (local: Result<Option<StubId>, Code>)
      modifies this
      ensures Value() == ManualSwitch(old(Value()), priority, world.make(priority), world.storeAt)
      ensures local.Ok? <==> old(activeStubLabel) == priority || world.make(priority).Hands?
      ensures local.Ok? ==> local.value == activeStub && activeStubLabel == priority
      ensures local.Err? ==>
        activeStub == None && activeStubLabel == Unknown && local.error == world.make(priority).code
      ensures old(activeStubLabel) == priority ==>
        activeStub == old(activeStub) && freshnessTime == old(freshnessTime)
      ensures local.Ok? && old(activeStubLabel) != priority ==>
        Hands(activeStub.GetOr(0)) == world.make(priority) && activeStub.Some? && freshnessTime == world.storeAt
    {
      if activeStubLabel != priority {
        activeStub, activeStubLabel := None, Unknown;
        var made := world.make(priority);
        if made.Fails? {
          return Err(made.code);
        }
        activeStub, activeStubLabel, freshnessTime := Some(made.stub), priority, world.storeAt;
      }
      local := Ok(activeStub);
    }

    /** The loop over labels, from `initial` on. */
    method FailoverLoop(world: World, initial: Label, attempted: Label, overall0: Code, log0: seq<Event>)
      returns (overall: Code, log: seq<Event>)
      modifies this
      ensures var (s, call) := Finish(cfg, old(Value()), Call(Try(initial), initial, attempted, overall0, log0), world);
        Value() == s && overall == call.overall && log == call.log
    {
      ghost var goal := Finish(cfg, Value(), Call(Try(initial), initial, attempted, overall0, log0), world);
      overall, log := overall0, log0;
      var next := initial;
      while next != Unknown
        invariant Finish(cfg, Value(), Call(Try(next), initial, attempted, overall, log), world) == goal
        decreases 2 - Rank(next)
      {
        if next == attempted {
          next := Following(next);
          continue;
        }
        var settled;
        settled, overall, log := TryEndpoint(world, next, initial, attempted, overall, log);
        if settled {
          return;
        }
        next := Following(next);
      }
    }

    /** One turn of the loop: make a stub for the endpoint and run func on it. */
    method TryEndpoint(world: World, next: Endpoint, ghost initial: Label, ghost attempted: Label, overall0: Code,
                       log0: seq<Event>)
      returns (settled: bool, overall: Code, log: seq<Event>)
      requires next != attempted
      modifies this
      ensures Finish(cfg, old(Value()), Call(Try(next), initial, attempted, overall0, log0), world)
        == var pc := if settled then Done else Try(Following(next));
           Finish(cfg, Value(), Call(pc, initial, attempted, overall, log), world)
    {
      var made := world.make(next);
      if made.Fails? {
        return !cfg.FailsOver(made.code), made.code, log0 + [NotMade(next, made.code)];
      }
      overall := world.run(made.stub, next);
      log := log0 + [Fresh(made.stub, next, overall)];
      settled := !cfg.FailsOver(overall);
      ghost var pc := if settled then Store(made.stub, next) else Try(Following(next));
      ghost var after := Call(pc, initial, attempted, overall, log);
      assert Finish(cfg, Value(), Call(RunFresh(made.stub, next), initial, attempted, overall0, log0), world)
        == Finish(cfg, Value(), after, world);
      if settled {
        activeStub, activeStubLabel, freshnessTime := Some(made.stub), next, world.storeAt;
      }
    }
  }
}
