/**
 * The launch protocol (injector/src/host_mode.rs:91-111, 304-323, 327-492): any number of launchers start the plugin
 * host of one game process. Each step is one action of one launcher, of a loading thread or of a host.
 */
module Launch {
  import opened Outcome

  /** The startup status a host publishes (crates/loader/src/startup.rs:7-10). */
  datatype Readiness = Dormant | Starting | Ready | Failed

  /** Where a launcher's call of `start` stands. */
  datatype Phase =
    | Begin                   // the DLL is checked; the lock is not asked for
    | Waiting                 // waits for the lock
    | Looking                 // looks for an existing host
    | Observing(host: string) // waits for the existing host
    | Opening                 // prepares to load
    | Named                   // the remote filename is allocated
    | Joining                 // waits for the loading thread
    | Confirming              // the thread has finished; looks for the module
    | Finding                 // looks for the loaded host
    | Settling(host: string)  // waits for the loaded host
    | Returned(loaded: bool)  // `Ok(loaded)`
    | Refused                 // `Err`
    | Killed

  /** The phases between taking the launch lock and dropping it. */
  predicate Holding(phase: Phase) {
    !phase.Begin? && !phase.Waiting? && !phase.Returned? && !phase.Refused? && !phase.Killed?
  }

  /**
   * `filenames` are the launchers whose remote filename is allocated, `threads` those whose loading thread may still
   * run, `loads` those whose LoadLibrary succeeded, in order, and `hosts` the loaded hosts by their path. `troubled`
   * remembers a loading thread not waited for to its end, a launcher killed with the lock, a host loaded outside the
   * lock or a host overlooked because its exports could not be read.
   */
  datatype State = State(
    phases: map<nat, Phase>,
    holder: Option<nat>,
    filenames: set<nat>,
    threads: set<nat>,
    loads: seq<nat>,
    hosts: map<string, Readiness>,
    troubled: bool)

  datatype Action =
    | Ask                         // the mutex exists
    | LockRefused                 // it cannot be made or waited for, or the wait times out
    | Acquire
    | Look(found: Option<string>) // what `existing` answers: no host, or the one host
    | Overlook                    // a host's exports cannot be read, and `existing` answers none
    | Give                        // an error while the lock is held and no filename is
    | Allocate
    | NameFails                   // the filename is not written, or no thread is made
    | Spawn
    | Join                        // the thread has finished
    | JoinFails                   // the wait for it times out or fails
    | Confirm                     // the module is there
    | ConfirmFails
    | SeeReady                    // the awaited host is ready
    | Die                         // the launcher is killed

  datatype Step =
    | Launcher(who: nat, action: Action)
    | ThreadLoads(who: nat)
    | ThreadFails(who: nat)
    | HostMoves(host: string, readiness: Readiness)
    | LoadedOutside(host: string)

  function PhaseOf(s: State, who: nat): Phase {
    if who in s.phases then s.phases[who] else Begin
  }

  function To(s: State, who: nat, phase: Phase): State {
    s.(phases := s.phases[who := phase])
  }

  /** The call ends: the lock, if it is held, is dropped. */
  function Leave(s: State, who: nat, phase: Phase): State {
    To(s, who, phase).(holder := if s.holder == Some(who) then None else s.holder)
  }

  /** The filename is freed. */
  function Freed(s: State, who: nat): State {
    s.(filenames := s.filenames - {who})
  }

  predicate Waits(phase: Phase) {
    phase.Observing? || phase.Settling?
  }

  predicate Awaited(s: State, phase: Phase) {
    Waits(phase) && phase.host in s.hosts && s.hosts[phase.host] == Ready
  }

  predicate Acts(paths: nat -> string, s: State, who: nat, action: Action) {
    var phase := PhaseOf(s, who);
    match action
    case Ask => phase.Begin?
    case LockRefused => phase.Begin? || phase.Waiting?
    case Acquire => phase.Waiting? && s.holder.None?
    case Look(found) =>
      (phase.Looking? || phase.Finding?) && s.hosts.Keys == (if found.Some? then {found.value} else {})
    case Overlook => phase.Looking? && s.hosts != map[]
    case Give => phase.Looking? || phase.Opening? || phase.Finding? || Waits(phase)
    case Allocate => phase.Opening?
    case NameFails => phase.Named?
    case Spawn => phase.Named?
    case Join => phase.Joining? && who !in s.threads
    case JoinFails => phase.Joining?
    case Confirm => phase.Confirming? && paths(who) in s.hosts
    case ConfirmFails => phase.Confirming?
    case SeeReady => Awaited(s, phase)
    case Die => !phase.Returned? && !phase.Refused? && !phase.Killed?
  }

  function Acted(s: State, who: nat, action: Action): State {
    var phase := PhaseOf(s, who);
    match action
    case Ask => To(s, who, Waiting)
    case LockRefused => Leave(s, who, Refused)
    case Acquire => To(s, who, Looking).(holder := Some(who))
    case Look(None) => if phase.Looking? then To(s, who, Opening) else Leave(s, who, Refused)
    case Look(Some(host)) => To(s, who, if phase.Looking? then Observing(host) else Settling(host))
    case Overlook => To(s, who, Opening).(troubled := true)
    case Give => Leave(s, who, Refused)
    case Allocate => To(s, who, Named).(filenames := s.filenames + {who})
    case NameFails => Leave(Freed(s, who), who, Refused)
    case Spawn => To(s, who, Joining).(threads := s.threads + {who})
    case Join => To(s, who, Confirming)
    case JoinFails => Leave(s, who, Refused).(troubled := true)
    case Confirm => To(Freed(s, who), who, Finding)
    case ConfirmFails => Leave(Freed(s, who), who, Refused)
    case SeeReady => Leave(s, who, Returned(phase.Settling?))
    case Die => Leave(s, who, Killed).(troubled := s.troubled || Holding(phase))
  }

  /** The moves of a host's startup (crates/loader/src/startup.rs:33-53). */
  predicate Moves(before: Readiness, after: Readiness) {
    (before.Dormant? && after.Starting?) || (before.Starting? && (after.Ready? || after.Failed?))
  }

  predicate Enabled(paths: nat -> string, s: State, step: Step) {
    match step
    case Launcher(who, action) => Acts(paths, s, who, action)
    case ThreadLoads(who) => who in s.threads
    case ThreadFails(who) => who in s.threads
    case HostMoves(host, readiness) => host in s.hosts && Moves(s.hosts[host], readiness)
    case LoadedOutside(host) => true
  }

  /** A path that is loaded already is not loaded a second time. */
  function Load(hosts: map<string, Readiness>, host: string): map<string, Readiness> {
    if host in hosts then hosts else hosts[host := Dormant]
  }

  function Next(paths: nat -> string, s: State, step: Step): State {
    match step
    case Launcher(who, action) => Acted(s, who, action)
    case ThreadLoads(who) =>
      s.(threads := s.threads - {who}, loads := s.loads + [who], hosts := Load(s.hosts, paths(who)))
    case ThreadFails(who) => s.(threads := s.threads - {who})
    case HostMoves(host, readiness) => s.(hosts := s.hosts[host := readiness])
    case LoadedOutside(host) => s.(hosts := Load(s.hosts, host), troubled := true)
  }

  const START := State(map[], None, {}, {}, [], map[], false)

  /** The state after a run; `paths` gives each launcher's DLL. */
  function After(paths: nat -> string, run: seq<Step>): State {
    if run == [] then START else Next(paths, After(paths, run[..|run| - 1]), run[|run| - 1])
  }

  /** Every step of the run could be taken where it was. */
  predicate IsRun(paths: nat -> string, run: seq<Step>) {
    run == [] || (IsRun(paths, run[..|run| - 1]) && Enabled(paths, After(paths, run[..|run| - 1]), run[|run| - 1]))
  }

  // ----- what every state keeps

  /** Exactly the launcher in a holding phase holds the lock. */
  ghost predicate Exclusive(s: State) {
    forall who: nat :: HoldsIf(s, who)
  }

  /** The filename of a thread that may run is allocated, and its launcher waits for it or has given up. */
  predicate ThreadSafe(s: State, who: nat) {
    && (who in s.threads ==>
          && who in s.filenames
          && (PhaseOf(s, who).Joining? || PhaseOf(s, who).Refused? || PhaseOf(s, who).Killed?))
    && (PhaseOf(s, who).Joining? || PhaseOf(s, who).Named? || PhaseOf(s, who).Confirming? ==> who in s.filenames)
  }

  ghost predicate ThreadsSafe(s: State) {
    forall who: nat :: ThreadSafe(s, who)
  }

  /** A launcher that has seen its host ready is right. */
  predicate Truthful(s: State, who: nat) {
    && (Waits(PhaseOf(s, who)) ==> PhaseOf(s, who).host in s.hosts)
    && (PhaseOf(s, who).Returned? ==> SomeReady(s))
  }

  predicate SomeReady(s: State) {
    exists host :: host in s.hosts && s.hosts[host] == Ready
  }

  ghost predicate AllTruthful(s: State) {
    forall who: nat :: Truthful(s, who)
  }

  ghost predicate Sound(s: State) {
    Exclusive(s) && ThreadsSafe(s) && AllTruthful(s)
  }

  predicate HoldsIf(s: State, who: nat) {
    Holding(PhaseOf(s, who)) <==> s.holder == Some(who)
  }

  lemma {:induction false} KeepsHolder(paths: nat -> string, s: State, who: nat, action: Action, other: nat)
    requires Acts(paths, s, who, action) && HoldsIf(s, who) && HoldsIf(s, other)
    requires s.holder.Some? ==> HoldsIf(s, s.holder.value)
    ensures HoldsIf(Acted(s, who, action), other)
  {
    hide Awaited;
  }

  lemma {:induction false} KeepsThread(paths: nat -> string, s: State, who: nat, action: Action, other: nat)
    requires Acts(paths, s, who, action) && ThreadSafe(s, who) && ThreadSafe(s, other)
    ensures ThreadSafe(Acted(s, who, action), other)
  {
    hide Holding;
  }

  lemma {:induction false} KeepsTruth(paths: nat -> string, s: State, who: nat, action: Action, other: nat)
    requires Acts(paths, s, who, action) && Truthful(s, who) && Truthful(s, other)
    ensures Truthful(Acted(s, who, action), other)
  {
    hide Holding;
    var t := Acted(s, who, action);
    assert t.hosts == s.hosts;
    assert SomeReady(t) <==> SomeReady(s);
    if action.SeeReady? {
      assert SomeReady(s);
    } else if action.Look? && action.found.Some? {
      assert action.found.value in s.hosts.Keys;
    }
  }

  lemma {:induction false} StepKeepsSound(paths: nat -> string, s: State, step: Step)
    requires Sound(s) && Enabled(paths, s, step)
    ensures Sound(Next(paths, s, step))
  {
    hide Acts, Acted, Holding, Moves, ThreadSafe, Truthful;
    var t := Next(paths, s, step);
    forall who: nat ensures HoldsIf(t, who) && ThreadSafe(t, who) && Truthful(t, who) {
      assert HoldsIf(s, who) && ThreadSafe(s, who) && Truthful(s, who);
      if step.Launcher? {
        assert HoldsIf(s, step.who) && ThreadSafe(s, step.who) && Truthful(s, step.who);
        assert s.holder.Some? ==> HoldsIf(s, s.holder.value);
        KeepsHolder(paths, s, step.who, step.action, who);
        KeepsThread(paths, s, step.who, step.action, who);
        KeepsTruth(paths, s, step.who, step.action, who);
      } else {
        OthersKeep(paths, s, step, who);
      }
    }
  }

  lemma {:induction false} OthersKeep(paths: nat -> string, s: State, step: Step, who: nat)
    requires !step.Launcher? && Enabled(paths, s, step)
    requires HoldsIf(s, who) && ThreadSafe(s, who) && Truthful(s, who)
    ensures var t := Next(paths, s, step);
            HoldsIf(t, who) && ThreadSafe(t, who) && Truthful(t, who)
  {
    ReadyStays(paths, s, step);
    var t := Next(paths, s, step);
    assert t.phases == s.phases && PhaseOf(t, who) == PhaseOf(s, who);
  }

  /** A host that is ready stays ready, and none is unloaded. */
  lemma {:induction false} ReadyStays(paths: nat -> string, s: State, step: Step)
    requires Enabled(paths, s, step)
    ensures var t := Next(paths, s, step);
            && s.hosts.Keys <= t.hosts.Keys
            && (SomeReady(s) ==> SomeReady(t))
  {
    var t := Next(paths, s, step);
    if SomeReady(s) {
      var host :| host in s.hosts && s.hosts[host] == Ready;
      assert host in t.hosts && t.hosts[host] == Ready;
    }
  }

  lemma {:induction false} RunIsSound(paths: nat -> string, run: seq<Step>)
    requires IsRun(paths, run)
    ensures Sound(After(paths, run))
    decreases |run|
  {
    hide Enabled, Next, Sound;
    if run == [] {
      StartIsSound();
    } else {
      RunIsSound(paths, run[..|run| - 1]);
      StepKeepsSound(paths, After(paths, run[..|run| - 1]), run[|run| - 1]);
    }
  }

  lemma {:induction false} StartIsSound()
    ensures Sound(START) && Single(START)
  {
  }

  /**
   * Over every run, with any timeouts and deaths: the filename of a loading thread that may still run is never freed,
   * and a `start` that returned has seen a host ready, which still is.
   */
  lemma {:induction false} FilenameOutlivesThread(paths: nat -> string, run: seq<Step>, who: nat)
    requires IsRun(paths, run)
    ensures who in After(paths, run).threads ==> who in After(paths, run).filenames
    ensures PhaseOf(After(paths, run), who).Returned? ==> SomeReady(After(paths, run))
  {
    hide After, IsRun;
    RunIsSound(paths, run);
    var s := After(paths, run);
    assert ThreadSafe(s, who) && Truthful(s, who);
  }

  // ----- one host

  /** The launchers between deciding to load and the load itself. */
  predicate MayLoad(s: State, who: nat) {
    var phase := PhaseOf(s, who);
    phase.Opening? || phase.Named? || (phase.Joining? && who in s.threads)
  }

  /** The launchers that have loaded, or whose load failed. */
  predicate Loaded(phase: Phase) {
    phase.Joining? || phase.Confirming? || phase.Finding? || phase.Settling?
  }

  predicate Lone(s: State, who: nat) {
    && (who in s.threads ==> PhaseOf(s, who).Joining?)
    && (MayLoad(s, who) ==> s.hosts == map[])
    && (Loaded(PhaseOf(s, who)) && s.hosts != map[] ==> s.loads == [who])
    && (PhaseOf(s, who).Returned? && PhaseOf(s, who).loaded ==> s.loads == [who])
    && (PhaseOf(s, who).Settling? ==> s.hosts != map[])
  }

  /** At most one load, and a host exactly when there was one. */
  predicate OneHost(s: State) {
    (s.hosts == map[] && s.loads == []) || (|s.loads| == 1 && exists host :: host in s.hosts && s.hosts.Keys == {host})
  }

  ghost predicate Single(s: State) {
    OneHost(s) && forall who: nat :: Lone(s, who)
  }

  lemma {:induction false} KeepsLone(paths: nat -> string, s: State, who: nat, action: Action, other: nat)
    requires Acts(paths, s, who, action) && !Acted(s, who, action).troubled
    requires HoldsIf(s, who) && HoldsIf(s, other) && Lone(s, who) && Lone(s, other) && Truthful(s, who) && OneHost(s)
    ensures Lone(Acted(s, who, action), other)
  {
    hide Acts, Lone, OneHost, Truthful, HoldsIf, SomeReady;
    if other == who {
      ActorKeepsLone(paths, s, who, action);
    } else {
      ActedOnOne(s, who, action, other);
      LoneSame(s, Acted(s, who, action), other);
    }
  }

  /** An action touches its own launcher, the lock, and nothing of another launcher. */
  lemma {:induction false} ActedOnOne(s: State, who: nat, action: Action, other: nat)
    requires who != other
    ensures var t := Acted(s, who, action);
            t.hosts == s.hosts && t.loads == s.loads && PhaseOf(t, other) == PhaseOf(s, other)
            && (other in t.threads <==> other in s.threads)
  {
    hide Holding;
  }

  lemma {:induction false} LoneSame(s: State, t: State, who: nat)
    requires Lone(s, who) && t.hosts == s.hosts && t.loads == s.loads && PhaseOf(t, who) == PhaseOf(s, who)
    requires who in t.threads <==> who in s.threads
    ensures Lone(t, who)
  {
  }

  lemma {:induction false} ActorKeepsLone(paths: nat -> string, s: State, who: nat, action: Action)
    requires Acts(paths, s, who, action) && !Acted(s, who, action).troubled
    requires HoldsIf(s, who) && Lone(s, who) && Truthful(s, who) && OneHost(s)
    ensures Lone(Acted(s, who, action), who)
  {
    hide SomeReady;
    var t := Acted(s, who, action);
    assert t.hosts == s.hosts && t.loads == s.loads;
    assert s.hosts == map[] <==> s.hosts.Keys == {};
  }

  lemma {:induction false} LoadKeepsLone(paths: nat -> string, s: State, who: nat, other: nat)
    requires who in s.threads && OneHost(s)
    requires HoldsIf(s, who) && HoldsIf(s, other) && Lone(s, who) && Lone(s, other)
    ensures Lone(Next(paths, s, ThreadLoads(who)), other)
  {
  }

  lemma {:induction false} StepKeepsSingle(paths: nat -> string, s: State, step: Step)
    requires Sound(s) && Single(s) && Enabled(paths, s, step)
    requires !Next(paths, s, step).troubled
    ensures Single(Next(paths, s, step))
  {
    hide Acts, Acted, Holding, Moves, ThreadSafe, Truthful, Lone, OneHost, HoldsIf;
    var t := Next(paths, s, step);
    OneHostStays(paths, s, step);
    forall who: nat ensures Lone(t, who) {
      assert HoldsIf(s, who) && Lone(s, who);
      if step.Launcher? {
        assert HoldsIf(s, step.who) && Lone(s, step.who) && Truthful(s, step.who);
        KeepsLone(paths, s, step.who, step.action, who);
      } else if step.ThreadLoads? {
        assert HoldsIf(s, step.who) && Lone(s, step.who);
        LoadKeepsLone(paths, s, step.who, who);
      } else {
        OthersKeepLone(paths, s, step, who);
      }
    }
  }

  lemma {:induction false} OthersKeepLone(paths: nat -> string, s: State, step: Step, who: nat)
    requires Enabled(paths, s, step) && Lone(s, who) && (step.ThreadFails? || step.HostMoves?)
    ensures Lone(Next(paths, s, step), who)
  {
    var t := Next(paths, s, step);
    assert PhaseOf(t, who) == PhaseOf(s, who);
    assert t.hosts == map[] <==> s.hosts == map[] by {
      assert t.hosts.Keys == s.hosts.Keys;
      assert t.hosts == map[] <==> t.hosts.Keys == {};
      assert s.hosts == map[] <==> s.hosts.Keys == {};
    }
  }

  lemma {:induction false} OneHostStays(paths: nat -> string, s: State, step: Step)
    requires Sound(s) && Single(s) && Enabled(paths, s, step)
    requires !Next(paths, s, step).troubled
    ensures OneHost(Next(paths, s, step))
  {
    hide ThreadsSafe, AllTruthful, Exclusive;
    var t := Next(paths, s, step);
    if step.ThreadLoads? {
      assert Lone(s, step.who);
      assert MayLoad(s, step.who);
      assert t.hosts == map[paths(step.who) := Dormant];
      assert t.hosts.Keys == {paths(step.who)};
    } else if step.HostMoves? {
      assert t.hosts.Keys == s.hosts.Keys;
    }
  }

  lemma {:induction false} TroubleStays(paths: nat -> string, s: State, step: Step)
    ensures s.troubled ==> Next(paths, s, step).troubled
  {
  }

  lemma {:induction false} RunIsSingle(paths: nat -> string, run: seq<Step>)
    requires IsRun(paths, run) && !After(paths, run).troubled
    ensures Single(After(paths, run))
    decreases |run|
  {
    hide Enabled, Next, Sound, Single;
    if run == [] {
      StartIsSound();
    } else {
      var before := run[..|run| - 1];
      TroubleStays(paths, After(paths, before), run[|run| - 1]);
      RunIsSound(paths, before);
      RunIsSingle(paths, before);
      StepKeepsSingle(paths, After(paths, before), run[|run| - 1]);
    }
  }

  /**
   * Over every run of any number of launchers in which no wait for a loading thread failed, no launcher died with the
   * lock, no host was loaded outside it and none was overlooked: at most one LoadLibrary succeeded, at most one host
   * is loaded, and at most one `start` has returned true.
   */
  lemma {:induction false} AtMostOneHost(paths: nat -> string, run: seq<Step>, a: nat, b: nat)
    requires IsRun(paths, run) && !After(paths, run).troubled
    ensures var s := After(paths, run);
            && |s.loads| <= 1
            && |s.hosts| <= 1
            && (PhaseOf(s, a) == Returned(true) && PhaseOf(s, b) == Returned(true) ==> a == b)
            && (PhaseOf(s, a) == Returned(true) ==> s.loads == [a])
  {
    hide After, IsRun;
    RunIsSingle(paths, run);
    var s := After(paths, run);
    assert Lone(s, a) && Lone(s, b);
    if s.hosts != map[] {
      var host :| host in s.hosts && s.hosts.Keys == {host};
      assert |s.hosts| == |s.hosts.Keys|;
    }
  }

  // ----- why the conditions are needed

  lemma {:induction false} RunMore(paths: nat -> string, run: seq<Step>, step: Step)
    requires IsRun(paths, run) && Enabled(paths, After(paths, run), step)
    ensures IsRun(paths, run + [step])
    ensures After(paths, run + [step]) == Next(paths, After(paths, run), step)
  {
    assert (run + [step])[..|run|] == run;
  }

  /** None of the run's steps is of that kind. */
  predicate Avoids(run: seq<Step>, bad: Step -> bool) {
    forall i :: 0 <= i < |run| ==> !bad(run[i])
  }

  /** Every trouble but a failed wait for a loading thread. */
  predicate NotAWait(step: Step) {
    step.LoadedOutside? || (step.Launcher? && (step.action.Overlook? || step.action.Die?))
  }

  /** Every trouble but an overlooked host. */
  predicate NotAnOversight(step: Step) {
    step.LoadedOutside? || (step.Launcher? && (step.action.JoinFails? || step.action.Die?))
  }

  /** Every trouble but a launcher killed with the lock. */
  predicate NotADeath(step: Step) {
    step.LoadedOutside? || (step.Launcher? && (step.action.Overlook? || step.action.JoinFails?))
  }

  /** Every trouble but a host loaded outside the lock. */
  predicate NotAnOutsider(step: Step) {
    step.Launcher? && (step.action.Overlook? || step.action.JoinFails? || step.action.Die?)
  }

  lemma {:induction false} OneMore(paths: nat -> string, run: seq<Step>, s: State, step: Step, bad: Step -> bool)
    returns (more: seq<Step>, t: State)
    requires IsRun(paths, run) && After(paths, run) == s && Enabled(paths, s, step)
    requires Avoids(run, bad) && !bad(step)
    ensures IsRun(paths, more) && After(paths, more) == t && t == Next(paths, s, step) && Avoids(more, bad)
  {
    hide Enabled, Next;
    RunMore(paths, run, step);
    more, t := run + [step], Next(paths, s, step);
  }

  predicate Ordinary(who: nat, bad: Step -> bool) {
    && !bad(Launcher(who, Ask)) && !bad(Launcher(who, Acquire)) && !bad(Launcher(who, Look(None)))
    && !bad(Launcher(who, Allocate)) && !bad(Launcher(who, Spawn))
  }

  /** A launcher up to its loading thread; it finds no host, or overlooks one. */
  lemma {:induction false} UpToLoading(paths: nat -> string, run: seq<Step>, s: State, who: nat, look: Action,
                                       bad: Step -> bool)
    returns (more: seq<Step>, t: State)
    requires IsRun(paths, run) && After(paths, run) == s && Avoids(run, bad)
    requires PhaseOf(s, who).Begin? && s.holder.None? && Ordinary(who, bad) && !bad(Launcher(who, look))
    requires if s.hosts == map[] then look == Look(None) else look == Overlook
    ensures IsRun(paths, more) && After(paths, more) == t && Avoids(more, bad)
    ensures t == s.(phases := t.phases, holder := Some(who), filenames := s.filenames + {who},
                    threads := s.threads + {who}, troubled := t.troubled)
    ensures PhaseOf(t, who).Joining? && forall other: nat :: other != who ==> PhaseOf(t, other) == PhaseOf(s, other)
  {
    hide After, IsRun, Avoids;
    more, t := OneMore(paths, run, s, Launcher(who, Ask), bad);
    more, t := OneMore(paths, more, t, Launcher(who, Acquire), bad);
    assert t.hosts == map[] ==> t.hosts.Keys == {};
    more, t := OneMore(paths, more, t, Launcher(who, look), bad);
    more, t := OneMore(paths, more, t, Launcher(who, Allocate), bad);
    more, t := OneMore(paths, more, t, Launcher(who, Spawn), bad);
  }

  /** When the wait for a loading thread times out and nothing else goes wrong, two hosts can end up loaded. */
  lemma {:induction false} TimeoutAllowsTwoHosts(paths: nat -> string) returns (run: seq<Step>)
    requires paths(0) != paths(1)
    ensures IsRun(paths, run) && Avoids(run, NotAWait)
    ensures After(paths, run).hosts.Keys == {paths(0), paths(1)}
  {
    hide After, IsRun, Avoids, Holding;
    var s: State;
    EmptyRun(paths, NotAWait);
    run, s := UpToLoading(paths, [], START, 0, Look(None), NotAWait);
    assert PhaseOf(s, 1) == PhaseOf(START, 1) == Begin;
    run, s := OneMore(paths, run, s, Launcher(0, JoinFails), NotAWait);
    run, s := UpToLoading(paths, run, s, 1, Look(None), NotAWait);
    run, s := OneMore(paths, run, s, ThreadLoads(1), NotAWait);
    run, s := OneMore(paths, run, s, ThreadLoads(0), NotAWait);
    assert s.hosts == map[paths(1) := Dormant, paths(0) := Dormant];
  }

  /** When a launcher dies with the lock and nothing else goes wrong, two hosts can end up loaded. */
  lemma {:induction false} DeathAllowsTwoHosts(paths: nat -> string) returns (run: seq<Step>)
    requires paths(0) != paths(1)
    ensures IsRun(paths, run) && Avoids(run, NotADeath)
    ensures After(paths, run).hosts.Keys == {paths(0), paths(1)}
  {
    hide After, IsRun, Avoids, Holding;
    var s: State;
    EmptyRun(paths, NotADeath);
    run, s := UpToLoading(paths, [], START, 0, Look(None), NotADeath);
    assert PhaseOf(s, 1) == PhaseOf(START, 1) == Begin;
    run, s := OneMore(paths, run, s, Launcher(0, Die), NotADeath);
    run, s := UpToLoading(paths, run, s, 1, Look(None), NotADeath);
    run, s := OneMore(paths, run, s, ThreadLoads(1), NotADeath);
    run, s := OneMore(paths, run, s, ThreadLoads(0), NotADeath);
    assert s.hosts == map[paths(1) := Dormant, paths(0) := Dormant];
  }

  /** When a host is loaded outside the lock and nothing else goes wrong, two hosts can end up loaded. */
  lemma {:induction false} OutsiderAllowsTwoHosts(paths: nat -> string, host: string) returns (run: seq<Step>)
    requires paths(0) != host
    ensures IsRun(paths, run) && Avoids(run, NotAnOutsider)
    ensures After(paths, run).hosts.Keys == {paths(0), host}
  {
    hide After, IsRun, Avoids, Holding;
    var s: State;
    EmptyRun(paths, NotAnOutsider);
    run, s := UpToLoading(paths, [], START, 0, Look(None), NotAnOutsider);
    run, s := OneMore(paths, run, s, LoadedOutside(host), NotAnOutsider);
    run, s := OneMore(paths, run, s, ThreadLoads(0), NotAnOutsider);
    assert s.hosts == map[host := Dormant, paths(0) := Dormant];
  }

  /** From the loading thread to the answer true, with one host of that path. */
  lemma {:induction false} UpToTrue(paths: nat -> string, run: seq<Step>, s: State, who: nat, bad: Step -> bool)
    returns (more: seq<Step>, t: State)
    requires IsRun(paths, run) && After(paths, run) == s && Avoids(run, bad)
    requires PhaseOf(s, who).Joining? && s.holder == Some(who) && who !in s.threads
    requires s.hosts == map[paths(who) := Ready]
    requires !bad(Launcher(who, Join)) && !bad(Launcher(who, Confirm)) && !bad(Launcher(who, Look(Some(paths(who)))))
    requires !bad(Launcher(who, SeeReady))
    ensures IsRun(paths, more) && After(paths, more) == t && Avoids(more, bad)
    ensures t.hosts == s.hosts && t.holder.None? && PhaseOf(t, who) == Returned(true)
    ensures forall other: nat :: other != who ==> PhaseOf(t, other) == PhaseOf(s, other)
  {
    hide After, IsRun, Avoids;
    more, t := OneMore(paths, run, s, Launcher(who, Join), bad);
    more, t := OneMore(paths, more, t, Launcher(who, Confirm), bad);
    assert t.hosts.Keys == {paths(who)};
    more, t := OneMore(paths, more, t, Launcher(who, Look(Some(paths(who)))), bad);
    more, t := OneMore(paths, more, t, Launcher(who, SeeReady), bad);
  }

  lemma {:induction false} LoadsAndReadies(paths: nat -> string, run: seq<Step>, s: State, who: nat, bad: Step -> bool)
    returns (more: seq<Step>, t: State)
    requires IsRun(paths, run) && After(paths, run) == s && Avoids(run, bad)
    requires who in s.threads && s.hosts == map[]
    requires !bad(ThreadLoads(who)) && !bad(HostMoves(paths(who), Starting)) && !bad(HostMoves(paths(who), Ready))
    ensures IsRun(paths, more) && After(paths, more) == t && Avoids(more, bad)
    ensures t.hosts == map[paths(who) := Ready] && t.threads == s.threads - {who}
    ensures t.holder == s.holder && t.phases == s.phases
  {
    hide After, IsRun, Avoids, Acts, Acted;
    more, t := OneMore(paths, run, s, ThreadLoads(who), bad);
    more, t := OneMore(paths, more, t, HostMoves(paths(who), Starting), bad);
    more, t := OneMore(paths, more, t, HostMoves(paths(who), Ready), bad);
  }

  /** One launcher starts the host and answers true. */
  lemma {:induction false} FirstTrue(paths: nat -> string) returns (run: seq<Step>, s: State)
    ensures IsRun(paths, run) && After(paths, run) == s && Avoids(run, NotAnOversight)
    ensures s.hosts == map[paths(0) := Ready] && s.holder.None?
    ensures PhaseOf(s, 0) == Returned(true) && PhaseOf(s, 1) == Begin
  {
    hide After, IsRun, Avoids, Acts, Acted;
    EmptyRun(paths, NotAnOversight);
    run, s := UpToLoading(paths, [], START, 0, Look(None), NotAnOversight);
    assert PhaseOf(s, 1) == PhaseOf(START, 1) == Begin;
    run, s := LoadsAndReadies(paths, run, s, 0, NotAnOversight);
    assert PhaseOf(s, 1) == Begin && PhaseOf(s, 0).Joining?;
    run, s := UpToTrue(paths, run, s, 0, NotAnOversight);
  }

  /** The thread of a launcher that overlooked the host finds its path loaded already. */
  lemma {:induction false} LoadsAgain(paths: nat -> string, run: seq<Step>, s: State, who: nat, bad: Step -> bool)
    returns (more: seq<Step>, t: State)
    requires IsRun(paths, run) && After(paths, run) == s && Avoids(run, bad)
    requires who in s.threads && paths(who) in s.hosts && !bad(ThreadLoads(who))
    ensures IsRun(paths, more) && After(paths, more) == t && Avoids(more, bad)
    ensures t.hosts == s.hosts && t.threads == s.threads - {who} && t.holder == s.holder && t.phases == s.phases
  {
    hide After, IsRun, Avoids, Acts, Acted;
    more, t := OneMore(paths, run, s, ThreadLoads(who), bad);
  }

  /** When the exports of a loaded host cannot be read and nothing else goes wrong, two calls can both answer true. */
  lemma {:induction false} OversightAllowsTwoTrues(paths: nat -> string) returns (run: seq<Step>)
    requires paths(0) == paths(1)
    ensures IsRun(paths, run) && Avoids(run, NotAnOversight)
    ensures PhaseOf(After(paths, run), 0) == PhaseOf(After(paths, run), 1) == Returned(true)
  {
    hide After, IsRun, Avoids, Acts, Acted, Next, Enabled;
    var s: State;
    run, s := FirstTrue(paths);
    assert paths(0) in s.hosts;
    run, s := UpToLoading(paths, run, s, 1, Overlook, NotAnOversight);
    assert PhaseOf(s, 0) == Returned(true) && PhaseOf(s, 1).Joining?;
    run, s := LoadsAgain(paths, run, s, 1, NotAnOversight);
    assert PhaseOf(s, 0) == Returned(true) && PhaseOf(s, 1).Joining?;
    run, s := UpToTrue(paths, run, s, 1, NotAnOversight);
  }

  lemma {:induction false} EmptyRun(paths: nat -> string, bad: Step -> bool)
    ensures IsRun(paths, []) && After(paths, []) == START && Avoids([], bad)
  {
  }
}
