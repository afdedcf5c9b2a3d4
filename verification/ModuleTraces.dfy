/** The log of a run of src/runtime.js, lines 105-121 and 316-330, event by event: what may come next
    is told by the program and the events so far alone. */
module ModuleTraces {
  import opened ModuleInit

  // ---- Where a body stands --------------------------------------------------------------------

  /** The event is the body of m going on to its next step. */
  predicate GoesOn(e: Event, m: Id) { e == Started(m) || PassesStep(e, m) }

  predicate PassesStep(e: Event, m: Id) { (e.Continued? && e.importer == m) || (e.Replaced? && e.id == m) }

  /** How many steps the body of m has passed. */
  function Passed(log: seq<Event>, m: Id): nat {
    if log == [] then 0
    else
      var n := |log| - 1;
      Passed(log[..n], m) + if PassesStep(log[n], m) then 1 else 0
  }

  /** The last thing that happened is that the body of m went on. */
  predicate Runs(log: seq<Event>, m: Id) { log != [] && GoesOn(log[|log| - 1], m) }

  predicate LastIs(log: seq<Event>, e: Event) { log != [] && log[|log| - 1] == e }

  /** The next step of the body of m is the given one. */
  predicate AtStep(p: Program, log: seq<Event>, m: Id, step: Step) {
    m in p && Passed(log, m) < |p[m].body| && p[m].body[Passed(log, m)] == step
  }

  /** What may follow the given events. A body is started by an import of one that runs, or from
      outside. A body goes on after an import if the module returned: it has just finished, or it
      was started before. An exception goes on to the importer, which goes on if it catches and
      fails if not. A body finishes behind its last step. */
  ghost predicate MayFollow(p: Program, log: seq<Event>, e: Event) {
    match e
    case Started(d) =>
      Started(d) !in log && forall m | Runs(log, m) :: AtStep(p, log, m, Import(d)) || AtStep(p, log, m, CatchImport(d))
    case Continued(m, d, Threw) => LastIs(log, Failed(d)) && AtStep(p, log, m, CatchImport(d))
    case Continued(m, d, Returned(v)) =>
      && (AtStep(p, log, m, Import(d)) || AtStep(p, log, m, CatchImport(d)))
      && (LastIs(log, Finished(d)) || (Runs(log, m) && Started(d) in log))
      && d in p && v == Answer(p, log, d)
    case Replaced(m, v) => Runs(log, m) && AtStep(p, log, m, SetExports(v))
    case Finished(m) => Runs(log, m) && m in p && Passed(log, m) == |p[m].body|
    case Failed(m) =>
      || (Runs(log, m) && AtStep(p, log, m, Throws))
      || exists d :: LastIs(log, Failed(d)) && AtStep(p, log, m, Import(d))
  }

  ghost predicate Traced(p: Program, log: seq<Event>) {
    forall i | 0 <= i < |log| :: MayFollow(p, log[..i], log[i])
  }

  /** The log tells which bodies were started. */
  ghost predicate LogStarts(s: State) { forall m :: Started(m) in s.log <==> m in s.started }

  /** Only bodies that were started have passed steps. */
  ghost predicate PassedStarted(s: State) { forall m | m !in s.started :: Passed(s.log, m) == 0 }

  ghost predicate Good(p: Program, s: State) {
    Traced(p, s.log) && LogStarts(s) && PassedStarted(s) && LogTells(p, s)
  }

  lemma PassedSnoc(log: seq<Event>, e: Event, m: Id)
    ensures Passed(log + [e], m) == Passed(log, m) + if PassesStep(e, m) then 1 else 0
  {
    assert (log + [e])[..|log|] == log;
  }

  /** One more event that may follow. */
  lemma GoodMore(p: Program, s: State, t: State, e: Event)
    requires Good(p, s) && MayFollow(p, s.log, e) && t.log == s.log + [e]
    requires t.started == if e.Started? then s.started + {e.id} else s.started
    requires forall m | PassesStep(e, m) :: m in s.started
    requires LogTells(p, t)
    ensures Good(p, t)
  {
    hide MayFollow, LogTells, PassesStep;
    forall i | 0 <= i < |t.log| ensures MayFollow(p, t.log[..i], t.log[i]) {
      if i < |s.log| { assert t.log[..i] == s.log[..i]; } else { assert t.log[..i] == s.log; }
    }
    assert forall x :: x in t.log <==> x in s.log || x == e;
    forall m | m !in t.started ensures Passed(t.log, m) == 0 {
      PassedSnoc(s.log, e, m);
    }
  }

  /** The bodies that were running before have passed as many steps as before, but for m. */
  ghost predicate SamePassed(s: State, t: State, m: Id) {
    forall x | x in s.started && x != m :: Passed(t.log, x) == Passed(s.log, x)
  }

  // ---- Every run is traced --------------------------------------------------------------------

  /** A body that runs asks for d. */
  ghost predicate Asked(p: Program, log: seq<Event>, d: Id) {
    forall m | Runs(log, m) :: AtStep(p, log, m, Import(d)) || AtStep(p, log, m, CatchImport(d))
  }

  /** What a call has done: it has returned at once, or run the body to its end. */
  ghost predicate CallGood(p: Program, s: State, id: Id, r: Ran)
    requires id in p
  {
    && Good(p, r.state) && s.started <= r.state.started
    && (forall x | x in s.started :: Passed(r.state.log, x) == Passed(s.log, x))
    && (if id in s.started then r == Ran(s, Returned(Current(p, s, id)))
        else LastIs(r.state.log, if r.outcome.Threw? then Failed(id) else Finished(id)))
    && (r.outcome.Returned? ==> r.outcome.value == Answer(p, r.state.log, id))
  }

  lemma {:induction false} CallTraced(p: Program, s: State, id: Id)
    requires Closed(p) && id in p && Good(p, s) && Asked(p, s.log, id)
    ensures CallGood(p, s, id, Call(p, s, id))
    decreases p.Keys - s.started, 0
  {
    hide *;
    if id in s.started {
      AlreadyStarted(p, s, id);
    } else {
      var s1 := s.(started := s.started + {id}, log := s.log + [Started(id)]);
      StartGood(p, s, id);
      ClosedBody(p, id);
      BodyTraced(p, s1, id, p[id].body);
      var ran := RunBody(p, s1, id, p[id].body);
      EndGood(p, ran.state, id, ran.outcome);
      CallEnds(p, s, id, ran);
    }
  }

  lemma ClosedBody(p: Program, id: Id)
    requires Closed(p) && id in p
    ensures StepsClosed(p, p[id].body)
  {
  }

  lemma AlreadyStarted(p: Program, s: State, id: Id)
    requires Closed(p) && id in p && Good(p, s) && id in s.started
    ensures CallGood(p, s, id, Call(p, s, id))
  {
    TellsNow(p, s, id);
    hide LogTells, Traced;
  }

  lemma CallEnds(p: Program, s: State, id: Id, ran: Ran)
    requires Closed(p) && id in p && id !in s.started
    requires var s1 := s.(started := s.started + {id}, log := s.log + [Started(id)]);
             ran == RunBody(p, s1, id, p[id].body) && SamePassed(s1, ran.state, id)
    requires Good(p, AfterBody(ran.state, id, ran.outcome))
    ensures CallGood(p, s, id, Call(p, s, id))
  {
    var r := Call(p, s, id);
    assert r.state == AfterBody(ran.state, id, ran.outcome);
    TellsNow(p, r.state, id) by { hide Traced; }
    hide LogTells, Traced, RunBody, Answer, Current;
    forall x | x in s.started ensures Passed(r.state.log, x) == Passed(s.log, x) {
      PassedSnoc(s.log, Started(id), x);
      PassedSnoc(ran.state.log, if ran.outcome.Threw? then Failed(id) else Finished(id), x);
    }
  }

  /** The state when the body of m has ended. */
  function AfterBody(s: State, m: Id, outcome: Outcome): State {
    if outcome.Threw? then s.(log := s.log + [Failed(m)])
    else s.(finished := s.finished + {m}, log := s.log + [Finished(m)])
  }

  lemma TellsNow(p: Program, s: State, id: Id)
    requires LogTells(p, s) && id in p
    ensures Current(p, s, id) == Answer(p, s.log, id)
  {
  }

  lemma StartGood(p: Program, s: State, id: Id)
    requires Good(p, s) && Asked(p, s.log, id) && id !in s.started && id in p
    ensures var s1 := s.(started := s.started + {id}, log := s.log + [Started(id)]);
            Good(p, s1) && Runs(s1.log, id) && Passed(s1.log, id) == 0
  {
    hide LogTells, Traced;
    var s1 := s.(started := s.started + {id}, log := s.log + [Started(id)]);
    TellsMore(p, s, s1, Started(id));
    assert MayFollow(p, s.log, Started(id));
    PassedSnoc(s.log, Started(id), id);
    GoodMore(p, s, s1, Started(id));
  }

  /** How a body ends: behind its last step, at a throw, or with the failure of what it imports. */
  ghost predicate BodyEnded(p: Program, log: seq<Event>, m: Id, outcome: Outcome) {
    && m in p
    && if outcome.Returned? then Runs(log, m) && Passed(log, m) == |p[m].body|
       else || (Runs(log, m) && AtStep(p, log, m, Throws))
            || exists d :: LastIs(log, Failed(d)) && AtStep(p, log, m, Import(d))
  }

  lemma EndGood(p: Program, s: State, m: Id, outcome: Outcome)
    requires Good(p, s) && BodyEnded(p, s.log, m, outcome)
    ensures Good(p, AfterBody(s, m, outcome))
  {
    hide LogTells, Traced;
    var e := if outcome.Threw? then Failed(m) else Finished(m);
    var t := AfterBody(s, m, outcome);
    TellsMore(p, s, t, e);
    assert MayFollow(p, s.log, e);
    GoodMore(p, s, t, e);
  }

  lemma {:induction false} BodyTraced(p: Program, s: State, m: Id, steps: seq<Step>)
    requires Closed(p) && StepsClosed(p, steps) && Good(p, s) && m in p && m in s.started && Runs(s.log, m)
    requires Passed(s.log, m) <= |p[m].body| && steps == p[m].body[Passed(s.log, m)..]
    ensures var r := RunBody(p, s, m, steps);
            Good(p, r.state) && SamePassed(s, r.state, m) && BodyEnded(p, r.state.log, m, r.outcome)
    decreases p.Keys - s.started, 1 + |steps|
  {
    hide Good, LogTells, MayFollow;
    if steps != [] {
      var step, more := steps[0], steps[1..];
      assert AtStep(p, s.log, m, step) && more == p[m].body[Passed(s.log, m) + 1..];
      match step
      case Throws =>
      case SetExports(v) =>
        var s' := Replace(s, m, v);
        ReplaceGood(p, s, m, v);
        BodyTraced(p, s', m, more);
      case _ =>
        var d := step.id;
        CallTraced(p, s, d) by { AskedBy(p, s.log, m, step); }
        var ran := Call(p, s, d);
        if step.CatchImport? || ran.outcome.Returned? {
          ContinueGood(p, s, ran, m, step);
          BodyTraced(p, Continue(ran, m, d), m, more);
        }
    }
  }

  lemma AskedBy(p: Program, log: seq<Event>, m: Id, step: Step)
    requires Runs(log, m) && AtStep(p, log, m, step) && (step.Import? || step.CatchImport?)
    ensures Asked(p, log, step.id)
  {
  }

  lemma ReplaceGood(p: Program, s: State, m: Id, v: int)
    requires Good(p, s) && Runs(s.log, m) && AtStep(p, s.log, m, SetExports(v)) && m in s.started
    ensures var t := Replace(s, m, v);
            Good(p, t) && Runs(t.log, m) && SamePassed(s, t, m) && Passed(t.log, m) == Passed(s.log, m) + 1
  {
    hide LogTells, Traced;
    var t := Replace(s, m, v);
    TellsMore(p, s, t, Replaced(m, v));
    assert MayFollow(p, s.log, Replaced(m, v));
    GoodMore(p, s, t, Replaced(m, v));
    forall x ensures Passed(t.log, x) == Passed(s.log, x) + if x == m then 1 else 0 {
      PassedSnoc(s.log, Replaced(m, v), x);
    }
  }

  lemma ContinueGood(p: Program, s: State, ran: Ran, m: Id, step: Step)
    requires Runs(s.log, m) && AtStep(p, s.log, m, step) && m in s.started
    requires (step.Import? && ran.outcome.Returned?) || step.CatchImport?
    requires step.id in p && CallGood(p, s, step.id, ran) && Good(p, s)
    ensures var t := Continue(ran, m, step.id);
            Good(p, t) && Runs(t.log, m) && SamePassed(s, t, m) && Passed(t.log, m) == Passed(s.log, m) + 1
  {
    ContinueFollows(p, s, ran, m, step);
    ContinueTold(p, ran, m, step.id);
    ContinuePassed(s, ran, m, step.id);
    hide LogTells, Traced, MayFollow, Answer, Current, Passed, LogStarts, PassedStarted;
    GoodMore(p, ran.state, Continue(ran, m, step.id), Continued(m, step.id, ran.outcome));
  }

  lemma ContinueFollows(p: Program, s: State, ran: Ran, m: Id, step: Step)
    requires Runs(s.log, m) && AtStep(p, s.log, m, step) && m in s.started
    requires (step.Import? && ran.outcome.Returned?) || step.CatchImport?
    requires step.id in p && CallGood(p, s, step.id, ran) && Good(p, s)
    ensures MayFollow(p, ran.state.log, Continued(m, step.id, ran.outcome))
  {
    hide LogTells, Traced, Answer, Current, PassedStarted;
    assert AtStep(p, ran.state.log, m, step);
  }

  lemma ContinueTold(p: Program, ran: Ran, m: Id, d: Id)
    requires Good(p, ran.state) && d in p
    requires ran.outcome.Returned? ==> ran.outcome.value == Answer(p, ran.state.log, d)
    ensures LogTells(p, Continue(ran, m, d))
  {
    TellsNow(p, ran.state, d);
    TellsMore(p, ran.state, Continue(ran, m, d), Continued(m, d, ran.outcome));
    hide LogTells, Traced;
  }

  lemma ContinuePassed(s: State, ran: Ran, m: Id, d: Id)
    requires m in s.started && forall x | x in s.started :: Passed(ran.state.log, x) == Passed(s.log, x)
    ensures var t := Continue(ran, m, d);
            Runs(t.log, m) && SamePassed(s, t, m) && Passed(t.log, m) == Passed(s.log, m) + 1
  {
    var t := Continue(ran, m, d);
    forall x ensures Passed(t.log, x) == Passed(ran.state.log, x) + if x == m then 1 else 0 {
      PassedSnoc(ran.state.log, Continued(m, d, ran.outcome), x);
    }
    hide Passed;
  }

  /** Over any run of top-level calls, in any program: every event is one that may follow those in
      front of it. */
  lemma {:induction false} RunsTraced(p: Program, s: State, ids: seq<Id>)
    requires Closed(p) && (forall id | id in ids :: id in p) && Good(p, s) && forall m :: !Runs(s.log, m)
    ensures Good(p, CallAll(p, s, ids)) && forall m :: !Runs(CallAll(p, s, ids).log, m)
    decreases |ids|
  {
    hide Good;
    if ids != [] {
      CallTraced(p, s, ids[0]);
      RunsTraced(p, Call(p, s, ids[0]).state, ids[1..]);
    }
  }

  lemma NothingYet(p: Program)
    ensures Good(p, FRESH) && forall m :: !Runs(FRESH.log, m)
  {
  }

  /** From the start on. */
  lemma EventsFollow(p: Program, ids: seq<Id>)
    requires Closed(p) && forall id | id in ids :: id in p
    ensures Traced(p, CallAll(p, FRESH, ids).log)
  {
    NothingYet(p);
    RunsTraced(p, FRESH, ids);
    hide Traced;
  }

  /** A body goes on after an exception only where it catches one. */
  lemma UncaughtEnds(p: Program, ids: seq<Id>, m: Id, d: Id)
    requires Closed(p) && forall id | id in ids :: id in p
    requires Continued(m, d, Threw) in CallAll(p, FRESH, ids).log
    ensures m in p && CatchImport(d) in p[m].body
  {
    EventsFollow(p, ids);
    var log := CallAll(p, FRESH, ids).log;
    hide CallAll;
    var i :| 0 <= i < |log| && log[i] == Continued(m, d, Threw);
    assert MayFollow(p, log[..i], log[i]);
  }

  // ---- The steps that a body has passed -------------------------------------------------------

  /** The events that are steps of the body of m. */
  function StepsOf(log: seq<Event>, m: Id): (events: seq<Event>)
    ensures |events| == Passed(log, m)
  {
    if log == [] then []
    else
      var n := |log| - 1;
      StepsOf(log[..n], m) + if PassesStep(log[n], m) then [log[n]] else []
  }

  /** The event is that of the step: an import that returned, an import caught whatever it did, or
      the new exports. */
  predicate IsStepOf(e: Event, m: Id, step: Step) {
    match step
    case Import(d) => e.Continued? && e.importer == m && e.imported == d && e.got.Returned?
    case CatchImport(d) => e.Continued? && e.importer == m && e.imported == d
    case SetExports(v) => e == Replaced(m, v)
    case Throws => false
  }

  lemma {:induction false} StepsInOrder(p: Program, log: seq<Event>, m: Id)
    requires Traced(p, log) && m in p
    ensures Passed(log, m) <= |p[m].body|
    ensures forall k | 0 <= k < Passed(log, m) :: IsStepOf(StepsOf(log, m)[k], m, p[m].body[k])
  {
    if log != [] {
      var n := |log| - 1;
      TracedFront(p, log);
      StepsInOrder(p, log[..n], m);
      hide Traced;
      assert MayFollow(p, log[..n], log[n]);
    }
  }

  lemma TracedFront(p: Program, log: seq<Event>)
    requires Traced(p, log) && log != []
    ensures Traced(p, log[..|log| - 1]) && MayFollow(p, log[..|log| - 1], log[|log| - 1])
  {
    var front := log[..|log| - 1];
    hide MayFollow;
    forall i | 0 <= i < |front| ensures MayFollow(p, front[..i], front[i]) {
      assert front[..i] == log[..i];
    }
  }

  lemma {:induction false} FinishedPassedAll(p: Program, log: seq<Event>, m: Id)
    requires Traced(p, log) && m in p && Finished(m) in log
    ensures Passed(log, m) == |p[m].body|
  {
    var n := |log| - 1;
    TracedFront(p, log);
    if Finished(m) in log[..n] { FinishedPassedAll(p, log[..n], m); }
    hide Traced;
  }

  /** Over any run: what a body has done are its steps, in order, each import either returned or
      caught; a body that finished has passed all of them, so each of its assignments to its exports
      is in the log. */
  lemma BodiesFollowed(p: Program, ids: seq<Id>, m: Id)
    requires Closed(p) && (forall id | id in ids :: id in p) && m in p
    ensures var log := CallAll(p, FRESH, ids).log;
            var events := StepsOf(log, m);
            && |events| <= |p[m].body|
            && (forall k | 0 <= k < |events| :: IsStepOf(events[k], m, p[m].body[k]))
            && (Finished(m) in log ==> |events| == |p[m].body|)
  {
    EventsFollow(p, ids);
    var log := CallAll(p, FRESH, ids).log;
    hide CallAll;
    StepsInOrder(p, log, m);
    if Finished(m) in log { FinishedPassedAll(p, log, m); }
  }

  // ---- Where nobody catches -------------------------------------------------------------------

  predicate CatchesNone(m: Module) { forall step | step in m.body :: !step.CatchImport? }

  ghost predicate NewFailed(s: State, t: State) { exists x :: Failed(x) in t.log && Failed(x) !in s.log }

  ghost predicate NoneCatch(p: Program, s: State, t: State) {
    forall m | m in t.started - s.started && m in p :: CatchesNone(p[m])
  }

  /** If none of the modules that a call starts catches, the call throws exactly if one of them fails. */
  lemma {:induction false} CallThrowsExactly(p: Program, s: State, id: Id)
    requires Closed(p) && id in p && EndsOnce(s) && NoneCatch(p, s, Call(p, s, id).state)
    ensures Call(p, s, id).outcome.Threw? <==> NewFailed(s, Call(p, s, id).state)
    decreases p.Keys - s.started, 0
  {
    if id !in s.started {
      var s1 := s.(started := s.started + {id}, log := s.log + [Started(id)]);
      var ran := RunBody(p, s1, id, p[id].body);
      var t := Call(p, s, id).state;
      assert forall e :: e in s1.log <==> e in s.log || e == Started(id);
      CallRunsWhole(p, s, id);
      assert id in t.started - s.started;
      BodyThrowsExactly(p, s1, id, p[id].body);
      assert forall e :: e in t.log <==> e in ran.state.log || e == if ran.outcome.Threw? then Failed(id) else Finished(id);
    }
  }

  lemma {:induction false} BodyThrowsExactly(p: Program, s: State, m: Id, steps: seq<Step>)
    requires Closed(p) && StepsClosed(p, steps) && EndsOnce(s) && m in s.started
    requires NoneCatch(p, s, RunBody(p, s, m, steps).state)
    requires forall step | step in steps :: !step.CatchImport?
    ensures NewFailed(s, RunBody(p, s, m, steps).state) ==> RunBody(p, s, m, steps).outcome.Threw?
    decreases p.Keys - s.started, 1 + |steps|
  {
    hide EndsOnce;
    if steps != [] {
      var step, more := steps[0], steps[1..];
      assert step in steps;
      match step
      case Throws =>
      case SetExports(v) =>
        var s' := Replace(s, m, v);
        assert forall e :: e in s'.log <==> e in s.log || e == Replaced(m, v);
        OwnStep(s, m, m, Threw, v);
        BodyThrowsExactly(p, s', m, more);
      case CatchImport(_) =>
      case Import(d) =>
        var ran, r := Call(p, s, d), RunBody(p, s, m, steps);
        CallRunsWhole(p, s, d);
        CallThrowsExactly(p, s, d);
        CallGrowsLog(p, s, d);
        if ran.outcome.Returned? {
          var t := Continue(ran, m, d);
          assert forall e :: e in t.log <==> e in ran.state.log || e == Continued(m, d, ran.outcome);
          OwnStep(ran.state, m, d, ran.outcome, 0);
          BodyThrowsExactly(p, t, m, more);
        }
    }
  }

  lemma {:induction false} CallGrowsLog(p: Program, s: State, id: Id)
    requires Closed(p) && id in p
    ensures s.log <= Call(p, s, id).state.log
    decreases p.Keys - s.started, 0
  {
    if id !in s.started {
      BodyGrowsLog(p, s.(started := s.started + {id}, log := s.log + [Started(id)]), id, p[id].body);
    }
  }

  lemma {:induction false} BodyGrowsLog(p: Program, s: State, m: Id, steps: seq<Step>)
    requires Closed(p) && StepsClosed(p, steps)
    ensures s.log <= RunBody(p, s, m, steps).state.log
    decreases p.Keys - s.started, 1 + |steps|
  {
    if steps != [] {
      match steps[0]
      case Throws =>
      case SetExports(v) => BodyGrowsLog(p, Replace(s, m, v), m, steps[1..]);
      case Import(d) =>
        CallGrowsLog(p, s, d);
        if Call(p, s, d).outcome.Returned? { BodyGrowsLog(p, Continue(Call(p, s, d), m, d), m, steps[1..]); }
      case CatchImport(d) =>
        CallGrowsLog(p, s, d);
        BodyGrowsLog(p, Continue(Call(p, s, d), m, d), m, steps[1..]);
    }
  }

  /** A chain of two: nobody catches what module 2 throws, so both fail and the call throws. */
  lemma ThrownThrough()
    ensures var p := map[1 := Module(Esm, [Import(2)]), 2 := Module(Esm, [Throws])];
            && Call(p, FRESH, 1).outcome == Threw
            && Call(p, FRESH, 1).state.log == [Started(1), Started(2), Failed(2), Failed(1)]
  {
    var p := map[1 := Module(Esm, [Import(2)]), 2 := Module(Esm, [Throws])];
    assert Closed(p);
    var s1 := State({} + {1}, {}, map[], [] + [Started(1)]);
    var s2 := s1.(started := s1.started + {2}, log := s1.log + [Started(2)]);
    assert RunBody(p, s2, 2, [Throws]) == Ran(s2, Threw);
    assert Call(p, s1, 2) == Ran(s2.(log := s2.log + [Failed(2)]), Threw);
  }
}
