/** The launch protocol gets on (injector/src/host_mode.rs:327-492): nothing is left behind, and no call is stuck. */
module Progress {
  import opened Outcome
  import opened Launch

  // ----- filenames

  /** Exactly the launchers between allocating and the module's being found have a filename. */
  predicate Tidy(s: State, who: nat) {
    var phase := PhaseOf(s, who);
    who in s.filenames <==> phase.Named? || phase.Joining? || phase.Confirming?
  }

  lemma {:induction false} StepKeepsTidy(paths: nat -> string, s: State, step: Step, who: nat)
    requires Tidy(s, who) && Enabled(paths, s, step) && !Next(paths, s, step).troubled
    ensures Tidy(Next(paths, s, step), who)
  {
    hide Acts, Acted, Tidy;
    match step
    case Launcher(actor, action) =>
      if actor == who {
        ActorKeepsTidy(paths, s, who, action);
      } else {
        OthersKeepNames(s, actor, action, who);
        SameTidy(s, Acted(s, actor, action), who);
      }
    case _ =>
      SameTidy(s, Next(paths, s, step), who);
  }

  lemma {:induction false} SameTidy(s: State, t: State, who: nat)
    requires PhaseOf(t, who) == PhaseOf(s, who) && (who in t.filenames <==> who in s.filenames) && Tidy(s, who)
    ensures Tidy(t, who)
  {
  }

  lemma {:induction false} ActorKeepsTidy(paths: nat -> string, s: State, who: nat, action: Action)
    requires Tidy(s, who) && Acts(paths, s, who, action) && !Acted(s, who, action).troubled
    ensures Tidy(Acted(s, who, action), who)
  {
  }

  lemma {:induction false} OthersKeepNames(s: State, who: nat, action: Action, other: nat)
    requires who != other
    ensures var t := Acted(s, who, action);
            PhaseOf(t, other) == PhaseOf(s, other) && (other in t.filenames <==> other in s.filenames)
  {
    hide Holding;
  }

  /** Over every untroubled run a filename is freed as soon as its thread has finished or none was made. */
  lemma {:induction false} FilenamesAreFreed(paths: nat -> string, run: seq<Step>, who: nat)
    requires IsRun(paths, run) && !After(paths, run).troubled
    ensures Tidy(After(paths, run), who)
    decreases |run|
  {
    hide Enabled, Next;
    if run != [] {
      var before := run[..|run| - 1];
      TroubleStays(paths, After(paths, before), run[|run| - 1]);
      FilenamesAreFreed(paths, before, who);
      StepKeepsTidy(paths, After(paths, before), run[|run| - 1], who);
    }
  }

  // ----- every call can end

  /** Steps by which something fails. */
  predicate Rough(step: Step) {
    match step
    case Launcher(_, action) =>
      action.LockRefused? || action.Overlook? || action.NameFails? || action.JoinFails? || action.Die?
    case ThreadFails(_) => true
    case HostMoves(_, readiness) => readiness.Failed?
    case LoadedOutside(_) => true
    case ThreadLoads(_) => false
  }

  predicate Ended(phase: Phase) {
    phase.Returned? || phase.Refused? || phase.Killed?
  }

  /** The call is on its way to a host that is ready. */
  predicate Promising(paths: nat -> string, s: State, who: nat) {
    match PhaseOf(s, who)
    case Looking => NoneFailed(s)
    case Opening => s.hosts == map[]
    case Named => s.hosts == map[]
    case Joining => if who in s.threads then s.hosts == map[] else paths(who) in s.hosts && NoneFailed(s)
    case Confirming => paths(who) in s.hosts && NoneFailed(s)
    case Finding => s.hosts != map[] && NoneFailed(s)
    case Observing(host) => NoneFailed(s)
    case Settling(host) => NoneFailed(s)
    case Returned(_) => true
    case _ => false
  }

  predicate NoneFailed(s: State) {
    forall host :: host in s.hosts ==> s.hosts[host] != Failed
  }

  /** What is left of a call that holds the lock. */
  function Left(s: State, who: nat): nat {
    match PhaseOf(s, who)
    case Looking => 10
    case Opening => 9
    case Named => 8
    case Joining => if who in s.threads then 7 else 6
    case Confirming => 5
    case Finding => 4
    case Observing(host) => Behind(s, host)
    case Settling(host) => Behind(s, host)
    case _ => 0
  }

  function Behind(s: State, host: string): nat {
    if host !in s.hosts then 1
    else match s.hosts[host]
         case Dormant => 3
         case Starting => 2
         case _ => 1
  }

  ghost predicate Calm(s: State) {
    Sound(s) && Single(s) && !s.troubled
  }

  /** The step is the launcher's, or what it waits for, and brings its call on. */
  predicate Advances(paths: nat -> string, s: State, who: nat, step: Step) {
    && Enabled(paths, s, step) && !Rough(step)
    && var t := Next(paths, s, step);
       && !t.troubled && Left(t, who) < Left(s, who)
       && (Holding(PhaseOf(t, who)) || (Ended(PhaseOf(t, who)) && t.holder.None?))
       && (Promising(paths, s, who) ==> Promising(paths, t, who))
       && (NoneFailed(s) ==> NoneFailed(t))
       && t.phases == s.phases[who := PhaseOf(t, who)]
  }

  lemma {:induction false} CanLook(paths: nat -> string, s: State, who: nat) returns (step: Step)
    requires OneHost(s) && !s.troubled && s.holder == Some(who)
    requires PhaseOf(s, who).Looking? || PhaseOf(s, who).Finding?
    ensures Advances(paths, s, who, step)
  {
    if s.hosts == map[] {
      step := Launcher(who, Look(None));
    } else {
      var host :| host in s.hosts && s.hosts.Keys == {host};
      step := Launcher(who, Look(Some(host)));
    }
  }

  lemma {:induction false} CanWait(paths: nat -> string, s: State, who: nat, host: string) returns (step: Step)
    requires !s.troubled && s.holder == Some(who) && host in s.hosts
    requires PhaseOf(s, who) == Observing(host) || PhaseOf(s, who) == Settling(host)
    ensures Advances(paths, s, who, step)
  {
    step := match s.hosts[host]
      case Dormant => HostMoves(host, Starting)
      case Starting => HostMoves(host, Ready)
      case Ready => Launcher(who, SeeReady)
      case Failed => Launcher(who, Give);
  }

  lemma {:induction false} CanLoad(paths: nat -> string, s: State, who: nat) returns (step: Step)
    requires !s.troubled && s.holder == Some(who)
    requires PhaseOf(s, who) in {Opening, Named, Joining, Confirming}
    ensures Advances(paths, s, who, step)
  {
    step := match PhaseOf(s, who)
      case Opening => Launcher(who, Allocate)
      case Named => Launcher(who, Spawn)
      case Joining => if who in s.threads then ThreadLoads(who) else Launcher(who, Join)
      case _ => Launcher(who, if paths(who) in s.hosts then Confirm else ConfirmFails);
  }

  /** The launcher with the lock, or what it waits for, can take a step. */
  lemma {:induction false} CanStep(paths: nat -> string, s: State, who: nat) returns (step: Step)
    requires Calm(s) && Holding(PhaseOf(s, who))
    ensures Advances(paths, s, who, step)
  {
    assert HoldsIf(s, who) && Truthful(s, who);
    var phase := PhaseOf(s, who);
    if phase.Looking? || phase.Finding? {
      step := CanLook(paths, s, who);
    } else if phase.Observing? || phase.Settling? {
      step := CanWait(paths, s, who, phase.host);
    } else {
      step := CanLoad(paths, s, who);
    }
  }

  /** A call that has the lock can be brought to its end. */
  lemma {:induction false} HolderCanEnd(paths: nat -> string, run: seq<Step>, who: nat) returns (tail: seq<Step>)
    requires IsRun(paths, run) && Calm(After(paths, run)) && Holding(PhaseOf(After(paths, run), who))
    ensures IsRun(paths, run + tail) && Avoids(tail, Rough)
    ensures var s, t := After(paths, run), After(paths, run + tail);
      && Calm(t) && t.holder.None? && Ended(PhaseOf(t, who))
      && (Promising(paths, s, who) ==> PhaseOf(t, who).Returned?)
      && (NoneFailed(s) ==> NoneFailed(t))
      && t.phases == s.phases[who := PhaseOf(t, who)]
    decreases Left(After(paths, run), who)
  {
    hide IsRun, After, Enabled, Next, Promising, NoneFailed, Left, Holding, Rough, Sound, Single;
    var s := After(paths, run);
    var step := CanStep(paths, s, who);
    var next := run + [step];
    RunMore(paths, run, step);
    var t := After(paths, next);
    StepKeepsSound(paths, s, step);
    StepKeepsSingle(paths, s, step);
    if Holding(PhaseOf(t, who)) {
      var rest := HolderCanEnd(paths, next, who);
      tail := [step] + rest;
      assert run + tail == next + rest;
    } else {
      tail := [step];
      if Promising(paths, s, who) {
        PromisingEnd(paths, t, who);
      }
    }
  }

  lemma {:induction false} PromisingEnd(paths: nat -> string, s: State, who: nat)
    requires Promising(paths, s, who) && Ended(PhaseOf(s, who))
    ensures PhaseOf(s, who).Returned?
  {
  }

  lemma {:induction false} OneStep(paths: nat -> string, run: seq<Step>, s: State, tail: seq<Step>, step: Step)
    returns (more: seq<Step>)
    requires IsRun(paths, run + tail) && After(paths, run + tail) == s && Calm(s) && Avoids(tail, Rough)
    requires Enabled(paths, s, step) && !Rough(step) && !Next(paths, s, step).troubled
    ensures more == tail + [step] && IsRun(paths, run + more) && Avoids(more, Rough)
    ensures After(paths, run + more) == Next(paths, s, step) && Calm(Next(paths, s, step))
  {
    hide IsRun, After, Enabled, Next, Rough, Sound, Single;
    more := tail + [step];
    RunMore(paths, run + tail, step);
    assert run + tail + [step] == run + more;
    StepKeepsSound(paths, s, step);
    StepKeepsSingle(paths, s, step);
  }

  /** The lock can be given back, by whoever holds it. */
  lemma {:induction false} LockCanBeFree(paths: nat -> string, run: seq<Step>) returns (tail: seq<Step>)
    requires IsRun(paths, run) && Calm(After(paths, run))
    ensures IsRun(paths, run + tail) && Avoids(tail, Rough)
    ensures var s, t := After(paths, run), After(paths, run + tail);
      && Calm(t) && t.holder.None? && (NoneFailed(s) ==> NoneFailed(t))
      && forall who: nat ::
          if Holding(PhaseOf(s, who)) then Ended(PhaseOf(t, who)) else PhaseOf(t, who) == PhaseOf(s, who)
  {
    hide IsRun, After, NoneFailed, Single, Rough;
    var s := After(paths, run);
    if s.holder.None? {
      tail := [];
      assert run + tail == run;
      forall who: nat ensures !Holding(PhaseOf(s, who)) {
        assert HoldsIf(s, who);
      }
    } else {
      assert HoldsIf(s, s.holder.value);
      tail := HolderCanEnd(paths, run, s.holder.value);
      forall who: nat | Holding(PhaseOf(s, who)) ensures who == s.holder.value {
        assert HoldsIf(s, who);
      }
    }
  }

  /** From asking for the lock to having it, when it is free. */
  lemma {:induction false} CanEnter(paths: nat -> string, run: seq<Step>, tail: seq<Step>, who: nat)
    returns (more: seq<Step>)
    requires IsRun(paths, run + tail) && Calm(After(paths, run + tail)) && Avoids(tail, Rough)
    requires var s := After(paths, run + tail);
      s.holder.None? && (PhaseOf(s, who).Begin? || PhaseOf(s, who).Waiting?)
    ensures IsRun(paths, run + more) && Avoids(more, Rough)
    ensures var s, t := After(paths, run + tail), After(paths, run + more);
      Calm(t) && t.hosts == s.hosts && PhaseOf(t, who).Looking?
  {
    hide IsRun, After, Avoids, Calm;
    var s := After(paths, run + tail);
    more := tail;
    assert !s.troubled by {
      assert Calm(s);
      CalmIs(s);
    }
    if PhaseOf(s, who).Begin? {
      more := OneStep(paths, run, s, more, Launcher(who, Ask));
      s := Next(paths, s, Launcher(who, Ask));
    }
    more := OneStep(paths, run, s, more, Launcher(who, Acquire));
  }

  lemma {:induction false} CalmIs(s: State)
    requires Calm(s)
    ensures !s.troubled
  {
  }

  /**
   * No call is ever stuck: after every untroubled run the launchers, the threads and the hosts can go on, with no
   * failure, to where a given call has ended; and while no host has failed, a call that has not got the lock yet can
   * still come to see a host ready.
   */
  lemma {:induction false} EveryCallCanEnd(paths: nat -> string, run: seq<Step>, who: nat) returns (tail: seq<Step>)
    requires IsRun(paths, run) && !After(paths, run).troubled
    ensures IsRun(paths, run + tail) && Avoids(tail, Rough)
    ensures var s, t := After(paths, run), After(paths, run + tail);
      && !t.troubled && Ended(PhaseOf(t, who))
      && (NoneFailed(s) && (PhaseOf(s, who).Begin? || PhaseOf(s, who).Waiting?) ==> PhaseOf(t, who).Returned?)
  {
    hide IsRun, After, NoneFailed, Rough, Sound, Single, Holding;
    RunIsSound(paths, run);
    RunIsSingle(paths, run);
    var s := After(paths, run);
    tail := LockCanBeFree(paths, run);
    if PhaseOf(s, who).Begin? || PhaseOf(s, who).Waiting? {
      BeforeTheLock(s, who);
      var t := After(paths, run + tail);
      tail := CanEnter(paths, run, tail, who);
      var u := After(paths, run + tail);
      SameHosts(t, u);
      LooksUp(u, who);
      var rest := HolderCanEnd(paths, run + tail, who);
      assert run + tail + rest == run + (tail + rest);
      tail := tail + rest;
    } else {
      AfterTheLock(s, who);
    }
  }

  lemma {:induction false} BeforeTheLock(s: State, who: nat)
    requires PhaseOf(s, who).Begin? || PhaseOf(s, who).Waiting?
    ensures !Holding(PhaseOf(s, who))
  {
  }

  lemma {:induction false} AfterTheLock(s: State, who: nat)
    requires !PhaseOf(s, who).Begin? && !PhaseOf(s, who).Waiting?
    ensures Holding(PhaseOf(s, who)) <==> !Ended(PhaseOf(s, who))
  {
  }

  lemma {:induction false} LooksUp(s: State, who: nat)
    requires PhaseOf(s, who).Looking?
    ensures Holding(PhaseOf(s, who))
  {
  }

  lemma {:induction false} SameHosts(s: State, t: State)
    requires s.hosts == t.hosts
    ensures NoneFailed(s) <==> NoneFailed(t)
  {
  }

  /** Every call that has not ended can be refused, and then gives the lock back; its filename stays only with a thread
      that was not waited for. */
  lemma {:induction false} EveryCallCanRefuse(paths: nat -> string, s: State, who: nat) returns (action: Action)
    requires Tidy(s, who) && !Ended(PhaseOf(s, who))
    ensures Enabled(paths, s, Launcher(who, action)) && !action.Die?
    ensures var t := Next(paths, s, Launcher(who, action));
      PhaseOf(t, who) == Refused && t.holder != Some(who) && (who in t.filenames <==> action.JoinFails?)
  {
    action := match PhaseOf(s, who)
      case Begin => LockRefused
      case Waiting => LockRefused
      case Named => NameFails
      case Joining => JoinFails
      case Confirming => ConfirmFails
      case _ => Give;
  }
}
