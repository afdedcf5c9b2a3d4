/** Lazy module initialisation: the thunks made by `__esm` and `__commonJS` (src/runtime.js,
    lines 105 and 316), called by module bodies in any pattern, cycles included. */
module ModuleInit {
  type Id = int

  datatype Kind = Esm | CommonJs

  /** What a body does: calls another thunk (and lets its exception pass, or catches it), replaces
      its `module.exports`, or throws. */
  datatype Step = Import(id: Id) | CatchImport(id: Id) | SetExports(version: int) | Throws

  datatype Module = Module(kind: Kind, body: seq<Step>)

  type Program = map<Id, Module>

  predicate IsImport(step: Step, d: Id) { step == Import(d) || step == CatchImport(d) }

  predicate Imports(p: Program, m: Id, d: Id)
    requires m in p
  {
    Import(d) in p[m].body || CatchImport(d) in p[m].body
  }

  /** Bodies call only thunks that exist. */
  predicate Closed(p: Program) {
    forall m | m in p :: StepsClosed(p, p[m].body)
  }

  predicate StepsClosed(p: Program, steps: seq<Step>) {
    forall step | step in steps :: (step.Import? || step.CatchImport?) ==> step.id in p
  }

  datatype Event =
    | Started(id: Id)
    | Finished(id: Id)
    | Failed(id: Id)
    | Replaced(id: Id, version: int)
    | Continued(importer: Id, imported: Id, got: Outcome)

  /** What a thunk returns: `res`, which is undefined until the body returns, or `mod.exports`. */
  datatype Value = Undefined | Result(id: Id) | Exports(id: Id, version: int)

  datatype Outcome = Returned(value: Value) | Threw

  /** started: `fn` is 0, or `mod` is set. finished: the body returned. */
  datatype State = State(started: set<Id>, finished: set<Id>, exports: map<Id, int>, log: seq<Event>)

  const FRESH := State({}, {}, map[], [])

  function Current(p: Program, s: State, id: Id): Value
    requires id in p
  {
    if p[id].kind == CommonJs then Exports(id, if id in s.exports then s.exports[id] else 0)
    else if id in s.finished then Result(id)
    else Undefined
  }

  datatype Ran = Ran(state: State, outcome: Outcome)

  /** Calling a thunk. The measure is the set of thunks not yet started. */
  function Call(p: Program, s: State, id: Id): (r: Ran)
    requires Closed(p) && id in p
    ensures s.started <= r.state.started && id in r.state.started
    decreases p.Keys - s.started, 0
  {
    if id in s.started then Ran(s, Returned(Current(p, s, id)))
    else
      var s1 := s.(started := s.started + {id}, log := s.log + [Started(id)]);
      var ran := RunBody(p, s1, id, p[id].body);
      var s2 := ran.state;
      if ran.outcome.Threw? then Ran(s2.(log := s2.log + [Failed(id)]), Threw)
      else
        var s3 := s2.(finished := s2.finished + {id}, log := s2.log + [Finished(id)]);
        Ran(s3, Returned(Current(p, s3, id)))
  }

  function RunBody(p: Program, s: State, m: Id, steps: seq<Step>): (r: Ran)
    requires Closed(p) && StepsClosed(p, steps)
    ensures s.started <= r.state.started
    decreases p.Keys - s.started, 1 + |steps|
  {
    if steps == [] then Ran(s, Returned(Undefined))
    else
      match steps[0]
      case Throws => Ran(s, Threw)
      case SetExports(v) => RunBody(p, Replace(s, m, v), m, steps[1..])
      case Import(d) =>
        var ran := Call(p, s, d);
        if ran.outcome.Threw? then ran
        else RunBody(p, Continue(ran, m, d), m, steps[1..])
      case CatchImport(d) =>
        RunBody(p, Continue(Call(p, s, d), m, d), m, steps[1..])
  }

  function Continue(ran: Ran, m: Id, d: Id): State {
    ran.state.(log := ran.state.log + [Continued(m, d, ran.outcome)])
  }

  function Replace(s: State, m: Id, version: int): State {
    s.(exports := s.exports[m := version], log := s.log + [Replaced(m, version)])
  }

  // ---- The thunks as objects with captured variables ------------------------------------------

  class Loader {
    const program: Program
    var started: set<Id>
    var finished: set<Id>
    var exports: map<Id, int>
    var log: seq<Event>

    ghost function View(): State
      reads this
    {
      State(started, finished, exports, log)
    }

    constructor (program: Program)
      ensures this.program == program && View() == FRESH
    {
      this.program := program;
      started, finished, exports, log := {}, {}, map[], [];
    }

    method CallThunk(id: Id) returns (outcome: Outcome)
      requires Closed(program) && id in program
      modifies this
      ensures Ran(View(), outcome) == Call(program, old(View()), id)
      decreases program.Keys - started, 0
    {
      if id !in started {
        started := started + {id};
        log := log + [Started(id)];
        outcome := RunSteps(id, program[id].body);
        if outcome.Threw? {
          log := log + [Failed(id)];
          return;
        }
        finished := finished + {id};
        log := log + [Finished(id)];
      }
      outcome := Returned(
        if program[id].kind == CommonJs then Exports(id, if id in exports then exports[id] else 0)
        else if id in finished then Result(id)
        else Undefined);
    }

    method RunSteps(m: Id, steps: seq<Step>) returns (outcome: Outcome)
      requires Closed(program) && StepsClosed(program, steps)
      modifies this
      ensures Ran(View(), outcome) == RunBody(program, old(View()), m, steps)
      decreases program.Keys - started, 1 + |steps|
    {
      if steps == [] { return Returned(Undefined); }
      match steps[0] {
        case Throws =>
          return Threw;
        case SetExports(v) =>
          exports := exports[m := v];
          log := log + [Replaced(m, v)];
        case Import(d) =>
          outcome := CallThunk(d);
          if outcome.Threw? { return; }
          log := log + [Continued(m, d, outcome)];
        case CatchImport(d) =>
          outcome := CallThunk(d);
          log := log + [Continued(m, d, outcome)];
      }
      outcome := RunSteps(m, steps[1..]);
    }
  }

  // ---- A body runs at most once ---------------------------------------------------------------

  /** The log starts exactly the started modules, each once. */
  ghost predicate StartsOnce(s: State) {
    && (forall m :: Started(m) in s.log <==> m in s.started)
    && (forall i, j | 0 <= i < j < |s.log| && s.log[i].Started? :: s.log[i] != s.log[j])
    && (forall m :: Finished(m) in s.log <==> m in s.finished)
    && s.finished <= s.started
  }

  lemma LogStart(s: State, id: Id)
    requires StartsOnce(s) && id !in s.started
    ensures StartsOnce(s.(started := s.started + {id}, log := s.log + [Started(id)]))
  {
    var log := s.log + [Started(id)];
    assert forall e :: e in log <==> e in s.log || e == Started(id);
  }

  lemma LogOther(s: State, t: State, e: Event)
    requires StartsOnce(s) && !e.Started? && (e.Finished? ==> e.id in s.started)
    requires t.log == s.log + [e] && t.started == s.started
    requires t.finished == if e.Finished? then s.finished + {e.id} else s.finished
    ensures StartsOnce(t)
  {
    assert forall x :: x in t.log <==> x in s.log || x == e;
  }

  /** Whatever the program and wherever it throws, and re-entered or not, no call starts a body twice. */
  lemma {:induction false} CallStartsOnce(p: Program, s: State, id: Id)
    requires Closed(p) && id in p && StartsOnce(s)
    ensures StartsOnce(Call(p, s, id).state)
    decreases p.Keys - s.started, 0
  {
    hide StartsOnce;
    if id !in s.started {
      LogStart(s, id);
      var s1 := s.(started := s.started + {id}, log := s.log + [Started(id)]);
      BodyStartsOnce(p, s1, id, p[id].body);
      var ran := RunBody(p, s1, id, p[id].body);
      LogOther(ran.state, Call(p, s, id).state, if ran.outcome.Threw? then Failed(id) else Finished(id));
    }
  }

  lemma {:induction false} BodyStartsOnce(p: Program, s: State, m: Id, steps: seq<Step>)
    requires Closed(p) && StepsClosed(p, steps) && StartsOnce(s)
    ensures StartsOnce(RunBody(p, s, m, steps).state)
    decreases p.Keys - s.started, 1 + |steps|
  {
    hide StartsOnce;
    if steps != [] {
      match steps[0]
      case Throws =>
      case SetExports(v) =>
        LogOther(s, Replace(s, m, v), Replaced(m, v));
        BodyStartsOnce(p, Replace(s, m, v), m, steps[1..]);
      case Import(d) =>
        CallStartsOnce(p, s, d);
        var ran := Call(p, s, d);
        if ran.outcome.Returned? {
          LogOther(ran.state, Continue(ran, m, d), Continued(m, d, ran.outcome));
          BodyStartsOnce(p, Continue(ran, m, d), m, steps[1..]);
        }
      case CatchImport(d) =>
        CallStartsOnce(p, s, d);
        var ran := Call(p, s, d);
        LogOther(ran.state, Continue(ran, m, d), Continued(m, d, ran.outcome));
        BodyStartsOnce(p, Continue(ran, m, d), m, steps[1..]);
    }
  }

  // ---- What a call leaves alone ---------------------------------------------------------------

  predicate Ended(s: State, m: Id) { Finished(m) in s.log || Failed(m) in s.log }

  /** A body that ended did so once: it finished or it failed. */
  ghost predicate EndsOnce(s: State) {
    && (forall m :: Ended(s, m) ==> m in s.started)
    && (forall m :: !(Finished(m) in s.log && Failed(m) in s.log))
    && (forall m :: m in s.finished <==> Finished(m) in s.log)
  }

  /** For module m the thunk's captured state and its end are the same in both states. */
  ghost predicate SameModule(s: State, t: State, m: Id) {
    && (m in s.finished <==> m in t.finished)
    && (m in s.exports <==> m in t.exports) && (m in s.exports ==> s.exports[m] == t.exports[m])
    && (Finished(m) in s.log <==> Finished(m) in t.log) && (Failed(m) in s.log <==> Failed(m) in t.log)
  }

  /** From s to t every module started in between has ended, and those started before are untouched,
      except for the module exports of m, the running one. */
  ghost predicate RanWhole(s: State, t: State, m: Id) {
    && s.started <= t.started
    && (forall x | x in t.started - s.started :: Ended(t, x))
    && (forall x | x in s.started && x != m :: SameModule(s, t, x))
    && (Ended(s, m) <==> Ended(t, m))
  }

  lemma RanWholeTrans(s: State, t: State, u: State, m: Id)
    requires RanWhole(s, t, m) && RanWhole(t, u, m) && m in s.started
    ensures RanWhole(s, u, m)
  {
    forall x | x in u.started - s.started ensures Ended(u, x) {
      if x in t.started {
        assert x in t.started - s.started;
        assert Ended(t, x) && SameModule(t, u, x);
      } else {
        assert x in u.started - t.started;
      }
    }
    forall x | x in s.started && x != m ensures SameModule(s, u, x) {
      assert SameModule(s, t, x) && SameModule(t, u, x);
    }
  }

  /** One step of the running module m: it goes on after an import, or sets its exports. */
  lemma OwnStep(s: State, m: Id, d: Id, outcome: Outcome, version: int)
    requires EndsOnce(s)
    ensures var t := Continue(Ran(s, outcome), m, d); EndsOnce(t) && RanWhole(s, t, m)
    ensures var t := Replace(s, m, version); EndsOnce(t) && RanWhole(s, t, m)
  {
    var t, u := Continue(Ran(s, outcome), m, d), Replace(s, m, version);
    assert forall e :: e in t.log <==> e in s.log || e == Continued(m, d, outcome);
    assert forall e :: e in u.log <==> e in s.log || e == Replaced(m, version);
  }

  /** In every program, with cycles, throws and catches, whatever a call starts has ended when it
      returns, finished or failed but not both; what ran before is left as it was. */
  lemma {:induction false} CallRunsWhole(p: Program, s: State, id: Id)
    requires Closed(p) && id in p && EndsOnce(s)
    ensures var t := Call(p, s, id).state;
            && EndsOnce(t) && s.started <= t.started
            && (forall x | x in t.started - s.started :: Ended(t, x))
            && (forall x | x in s.started :: SameModule(s, t, x))
    ensures id !in s.started ==>
              (Call(p, s, id).outcome.Threw? <==> Failed(id) in Call(p, s, id).state.log)
    decreases p.Keys - s.started, 0
  {
    if id !in s.started {
      var s1 := s.(started := s.started + {id}, log := s.log + [Started(id)]);
      assert forall e :: e in s1.log <==> e in s.log || e == Started(id);
      BodyRunsWhole(p, s1, id, p[id].body);
      var ran := RunBody(p, s1, id, p[id].body);
      assert !Ended(s1, id);
      EndsAfter(s, s1, ran.state, Call(p, s, id).state, id, if ran.outcome.Threw? then Failed(id) else Finished(id));
    }
  }

  lemma EndsAfter(s: State, s1: State, u: State, t: State, id: Id, end: Event)
    requires id !in s.started && s1 == s.(started := s.started + {id}, log := s.log + [Started(id)])
    requires EndsOnce(u) && RanWhole(s1, u, id) && !Ended(s1, id)
    requires end == Finished(id) || end == Failed(id)
    requires t == u.(finished := if end.Finished? then u.finished + {id} else u.finished, log := u.log + [end])
    ensures EndsOnce(t) && s.started <= t.started && (Failed(id) in t.log <==> end.Failed?)
    ensures (forall x | x in t.started - s.started :: Ended(t, x)) && (forall x | x in s.started :: SameModule(s, t, x))
  {
    assert forall e :: e in s1.log <==> e in s.log || e == Started(id);
    assert forall e :: e in t.log <==> e in u.log || e == end;
    assert !Ended(u, id);
    forall x | x in s.started ensures SameModule(s, t, x) {
      assert SameModule(s1, u, x);
    }
    forall x | x in t.started - s.started ensures Ended(t, x) {
      if x != id { assert x in u.started - s1.started; }
    }
  }

  lemma {:induction false} BodyRunsWhole(p: Program, s: State, m: Id, steps: seq<Step>)
    requires Closed(p) && StepsClosed(p, steps) && EndsOnce(s) && m in s.started
    ensures EndsOnce(RunBody(p, s, m, steps).state) && RanWhole(s, RunBody(p, s, m, steps).state, m)
    decreases p.Keys - s.started, 1 + |steps|
  {
    hide EndsOnce;
    if steps != [] {
      var step, more := steps[0], steps[1..];
      match step
      case Throws =>
      case SetExports(v) =>
        var s' := Replace(s, m, v);
        OwnStep(s, m, m, Threw, v);
        BodyRunsWhole(p, s', m, more);
        RanWholeTrans(s, s', RunBody(p, s', m, more).state, m);
      case _ =>
        var d := step.id;
        CallRunsWhole(p, s, d);
        var ran := Call(p, s, d);
        assert SameModule(s, ran.state, m);
        if step.CatchImport? || ran.outcome.Returned? {
          var t := Continue(ran, m, d);
          OwnStep(ran.state, m, d, ran.outcome, 0);
          RanWholeTrans(s, ran.state, t, m);
          BodyRunsWhole(p, t, m, more);
          RanWholeTrans(s, t, RunBody(p, t, m, more).state, m);
        }
    }
  }

  /** Top-level calls one after another. */
  function CallAll(p: Program, s: State, ids: seq<Id>): State
    requires Closed(p) && forall id | id in ids :: id in p
    decreases |ids|
  {
    if ids == [] then s else CallAll(p, Call(p, s, ids[0]).state, ids[1..])
  }

  lemma {:induction false} CallAllKeeps(p: Program, s: State, ids: seq<Id>, x: Id)
    requires Closed(p) && (forall id | id in ids :: id in p) && EndsOnce(s) && x in s.started
    ensures var t := CallAll(p, s, ids); x in t.started && EndsOnce(t) && SameModule(s, t, x)
    decreases |ids|
  {
    hide EndsOnce;
    if ids != [] {
      var t := Call(p, s, ids[0]).state;
      CallRunsWhole(p, s, ids[0]);
      CallAllKeeps(p, t, ids[1..], x);
    }
  }

  /** Unless it is called while its own body is running, a thunk answers the same for good: whatever
      is called in between, a later call runs nothing and returns what the first one returned; a first
      call that threw leaves undefined, or the module.exports of that moment. */
  lemma CalledForGood(p: Program, s: State, id: Id, between: seq<Id>)
    requires Closed(p) && id in p && (forall x | x in between :: x in p) && EndsOnce(s)
    requires id in s.started ==> Ended(s, id)
    ensures var first := Call(p, s, id);
            var t := CallAll(p, first.state, between);
            && Ended(t, id) && Call(p, t, id).state == t
            && (first.outcome.Returned? ==> Call(p, t, id).outcome == first.outcome)
            && (first.outcome.Threw? ==> Call(p, t, id).outcome == Returned(
                  if p[id].kind == CommonJs then Current(p, first.state, id) else Undefined))
  {
    var first := Call(p, s, id);
    CallRunsWhole(p, s, id);
    CallAllKeeps(p, first.state, between, id);
    if first.outcome.Threw? {
      assert Failed(id) in first.state.log;
      assert id !in first.state.finished;
    }
  }

  // ---- What a thunk answers at every moment of a run -------------------------------------------

  function VersionIn(log: seq<Event>, id: Id): int {
    if log == [] then 0
    else
      var e := log[|log| - 1];
      if e.Replaced? && e.id == id then e.version else VersionIn(log[..|log| - 1], id)
  }

  /** Told by what has happened so far alone. */
  function Answer(p: Program, log: seq<Event>, id: Id): Value
    requires id in p
  {
    if p[id].kind == CommonJs then Exports(id, VersionIn(log, id))
    else if Finished(id) in log then Result(id)
    else Undefined
  }

  /** Event i is a body going on with the value v of module d. */
  predicate Gets(log: seq<Event>, i: nat, d: Id, v: Value) {
    i < |log| && log[i].Continued? && log[i].imported == d && log[i].got == Returned(v)
  }

  /** Every started thunk would return, and every import has got, what the log up to then tells. */
  ghost predicate LogTells(p: Program, s: State) {
    && (forall id | id in p :: Current(p, s, id) == Answer(p, s.log, id))
    && (forall i: nat, d, v | d in p && Gets(s.log, i, d, v) :: v == Answer(p, s.log[..i], d))
  }

  lemma TellsMore(p: Program, s: State, t: State, e: Event)
    requires LogTells(p, s) && t.log == s.log + [e]
    requires t.finished == if e.Finished? then s.finished + {e.id} else s.finished
    requires t.exports == if e.Replaced? then s.exports[e.id := e.version] else s.exports
    requires e.Continued? && e.got.Returned? && e.imported in p ==> e.got.value == Current(p, s, e.imported)
    ensures LogTells(p, t)
  {
    assert t.log[..|s.log|] == s.log;
    forall id | id in p ensures Current(p, t, id) == Answer(p, t.log, id) {
      assert Finished(id) in t.log <==> Finished(id) in s.log || e == Finished(id);
      assert Current(p, s, id) == Answer(p, s.log, id);
    }
    forall i: nat, d, v | d in p && Gets(t.log, i, d, v) ensures v == Answer(p, t.log[..i], d) {
      if i < |s.log| {
        assert Gets(s.log, i, d, v) && t.log[..i] == s.log[..i];
      }
    }
  }

  lemma {:induction false} CallTells(p: Program, s: State, id: Id)
    requires Closed(p) && id in p && LogTells(p, s)
    ensures LogTells(p, Call(p, s, id).state)
    ensures var r := Call(p, s, id); r.outcome.Returned? ==> r.outcome.value == Current(p, r.state, id)
    decreases p.Keys - s.started, 0
  {
    hide LogTells;
    if id !in s.started {
      var s1 := s.(started := s.started + {id}, log := s.log + [Started(id)]);
      TellsMore(p, s, s1, Started(id));
      BodyTells(p, s1, id, p[id].body);
      var ran := RunBody(p, s1, id, p[id].body);
      TellsMore(p, ran.state, Call(p, s, id).state, if ran.outcome.Threw? then Failed(id) else Finished(id));
    }
  }

  lemma {:induction false} BodyTells(p: Program, s: State, m: Id, steps: seq<Step>)
    requires Closed(p) && StepsClosed(p, steps) && LogTells(p, s)
    ensures LogTells(p, RunBody(p, s, m, steps).state)
    decreases p.Keys - s.started, 1 + |steps|
  {
    hide LogTells;
    if steps != [] && steps[0] != Throws {
      var step, more := steps[0], steps[1..];
      if step.SetExports? {
        TellsMore(p, s, Replace(s, m, step.version), Replaced(m, step.version));
        BodyTells(p, Replace(s, m, step.version), m, more);
      } else {
        var d := step.id;
        CallTells(p, s, d);
        var ran := Call(p, s, d);
        if step.CatchImport? || ran.outcome.Returned? {
          TellsMore(p, ran.state, Continue(ran, m, d), Continued(m, d, ran.outcome));
          BodyTells(p, Continue(ran, m, d), m, more);
        }
      }
    }
  }

  lemma {:induction false} CallAllTells(p: Program, s: State, ids: seq<Id>)
    requires Closed(p) && (forall id | id in ids :: id in p) && LogTells(p, s) && EndsOnce(s)
    ensures LogTells(p, CallAll(p, s, ids)) && EndsOnce(CallAll(p, s, ids))
    decreases |ids|
  {
    hide LogTells, EndsOnce;
    if ids != [] {
      CallTells(p, s, ids[0]);
      CallRunsWhole(p, s, ids[0]);
      CallAllTells(p, Call(p, s, ids[0]).state, ids[1..]);
    }
  }

  /** Over any run of top-level calls, with everything that runs in them: two imports of one module
      get different values exactly if the first happened while the module's own body was running and
      that body has returned since, for an ES module; if it has replaced its module.exports by others
      since, for a CommonJS one. */
  lemma AnswersDifferExactly(p: Program, ids: seq<Id>, d: Id, i: nat, j: nat, v: Value, w: Value)
    requires Closed(p) && (forall id | id in ids :: id in p) && d in p
    requires var log := CallAll(p, FRESH, ids).log; i < j && Gets(log, i, d, v) && Gets(log, j, d, w)
    ensures var log := CallAll(p, FRESH, ids).log;
            v != w <==> if p[d].kind == CommonJs then VersionIn(log[..i], d) != VersionIn(log[..j], d)
                        else Finished(d) !in log[..i] && Failed(d) !in log[..i] && Finished(d) in log[..j]
  {
    CallAllTells(p, FRESH, ids);
    var t := CallAll(p, FRESH, ids);
    hide CallAll;
    assert v == Answer(p, t.log[..i], d) && w == Answer(p, t.log[..j], d);
    assert t.log[..i] == t.log[..j][..i];
    assert forall e | e in t.log[..i] :: e in t.log[..j];
    assert forall e | e in t.log[..j] :: e in t.log;
  }

  /** Modules 1 and 2 import each other: 2 gets undefined from 1, whose body is running; a later call
      of 1 gets its result. */
  lemma ReentrantAnswer()
    ensures var p := map[1 := Module(Esm, [Import(2)]), 2 := Module(Esm, [Import(1)])];
            && Closed(p)
            && Call(p, FRESH, 1).state.log ==
               [Started(1), Started(2), Continued(2, 1, Returned(Undefined)), Finished(2),
                Continued(1, 2, Returned(Result(2))), Finished(1)]
            && Call(p, Call(p, FRESH, 1).state, 1).outcome == Returned(Result(1))
  {
    var p := map[1 := Module(Esm, [Import(2)]), 2 := Module(Esm, [Import(1)])];
    assert Closed(p);
    assert [Import(2)][1..] == [] && [Import(1)][1..] == [];
    var s1 := State({} + {1}, {}, map[], [] + [Started(1)]);
    var s2 := s1.(started := s1.started + {2}, log := s1.log + [Started(2)]);
    assert Call(p, s2, 1) == Ran(s2, Returned(Undefined));
    var s3 := Continue(Call(p, s2, 1), 2, 1);
    assert RunBody(p, s2, 2, [Import(1)]) == RunBody(p, s3, 2, []) == Ran(s3, Returned(Undefined));
    var s4 := s3.(finished := s3.finished + {2}, log := s3.log + [Finished(2)]);
    assert Call(p, s1, 2) == Ran(s4, Returned(Result(2)));
    var s5 := Continue(Call(p, s1, 2), 1, 2);
    assert RunBody(p, s1, 1, [Import(2)]) == RunBody(p, s5, 1, []) == Ran(s5, Returned(Undefined));
  }

  // ---- Without throws every reachable body runs -----------------------------------------------

  predicate NeverThrows(p: Program) {
    forall m | m in p :: Throws !in p[m].body
  }

  /** A chain of imports. */
  ghost predicate IsPath(p: Program, path: seq<Id>) {
    && path != [] && (forall m | m in path :: m in p)
    && forall i | 0 <= i < |path| - 1 :: Imports(p, path[i], path[i + 1])
  }

  ghost predicate Reaches(p: Program, a: Id, b: Id) {
    exists path :: IsPath(p, path) && path[0] == a && path[|path| - 1] == b
  }

  /** What a call adds: new modules only, all of them finished, their imports all started. */
  ghost predicate Grown(p: Program, s: State, t: State) {
    && s.started <= t.started && t.started - s.started <= p.Keys
    && t.finished == s.finished + (t.started - s.started)
    && forall m, d | m in t.started - s.started && m in p && Imports(p, m, d) :: d in t.started
  }

  lemma GrownTrans(p: Program, s: State, t: State, u: State)
    requires Grown(p, s, t) && Grown(p, t, u)
    ensures Grown(p, s, u)
  {
  }

  lemma {:induction false} CallGrows(p: Program, s: State, id: Id)
    requires Closed(p) && id in p && NeverThrows(p)
    ensures Call(p, s, id).outcome.Returned?
    ensures Grown(p, s, Call(p, s, id).state)
    ensures forall m | m in Call(p, s, id).state.started - s.started :: Reaches(p, id, m)
    decreases p.Keys - s.started, 0
  {
    if id !in s.started {
      var body := p[id].body;
      var s1 := s.(started := s.started + {id}, log := s.log + [Started(id)]);
      BodyGrows(p, s1, id, body);
      var t := RunBody(p, s1, id, body).state;
      forall m | m in t.started - s.started ensures Reaches(p, id, m) {
        if m == id {
          assert IsPath(p, [id]);
        } else {
          assert m in t.started - s1.started;
          ReachesThrough(p, id, m);
        }
      }
    }
  }

  ghost predicate ReachesViaImport(p: Program, a: Id, steps: seq<Step>, b: Id) {
    exists d :: d in p && (Import(d) in steps || CatchImport(d) in steps) && Reaches(p, d, b)
  }

  lemma ReachesThrough(p: Program, a: Id, b: Id)
    requires a in p && ReachesViaImport(p, a, p[a].body, b)
    ensures Reaches(p, a, b)
  {
    var d :| d in p && (Import(d) in p[a].body || CatchImport(d) in p[a].body) && Reaches(p, d, b);
    var path :| IsPath(p, path) && path[0] == d && path[|path| - 1] == b;
    var longer := [a] + path;
    forall i | 0 <= i < |longer| - 1 ensures Imports(p, longer[i], longer[i + 1]) {
      if i > 0 { assert Imports(p, path[i - 1], path[i]); }
    }
    assert IsPath(p, longer);
  }

  lemma {:induction false} BodyGrows(p: Program, s: State, a: Id, steps: seq<Step>)
    requires Closed(p) && StepsClosed(p, steps) && NeverThrows(p) && Throws !in steps
    ensures var r := RunBody(p, s, a, steps);
            && r.outcome.Returned? && Grown(p, s, r.state)
            && (forall d | Import(d) in steps || CatchImport(d) in steps :: d in r.state.started)
            && (forall m | m in r.state.started - s.started :: ReachesViaImport(p, a, steps, m))
    decreases p.Keys - s.started, 1 + |steps|
  {
    if steps != [] {
      var r := RunBody(p, s, a, steps);
      var more := steps[1..];
      var step := steps[0];
      assert step in steps;
      assert forall x :: x in steps <==> x == step || x in more;
      if step.SetExports? {
        BodyGrows(p, Replace(s, a, step.version), a, more);
        WidenReach(p, a, more, steps, r.state.started - s.started);
      } else {
        assert IsImport(step, step.id);
        var d := step.id;
        CallGrows(p, s, d);
        var t := Call(p, s, d).state;
        var t' := Continue(Call(p, s, d), a, d);
        BodyGrows(p, t', a, more);
        GrownTrans(p, s, t', r.state);
        WidenReach(p, a, more, steps, r.state.started - t.started);
        forall m | m in r.state.started - s.started ensures ReachesViaImport(p, a, steps, m) {
          if m in t.started {
            assert Reaches(p, d, m);
          } else {
            assert m in r.state.started - t.started;
          }
        }
      }
    }
  }

  lemma WidenReach(p: Program, a: Id, more: seq<Step>, steps: seq<Step>, ms: set<Id>)
    requires forall m | m in ms :: ReachesViaImport(p, a, more, m)
    requires forall x | x in more :: x in steps
    ensures forall m | m in ms :: ReachesViaImport(p, a, steps, m)
  {
    forall m | m in ms ensures ReachesViaImport(p, a, steps, m) {
      var d :| d in p && (Import(d) in more || CatchImport(d) in more) && Reaches(p, d, m);
      assert Import(d) in steps || CatchImport(d) in steps;
    }
  }

  /** Between top-level calls nothing is half done. */
  ghost predicate Settled(p: Program, s: State) {
    && s.finished == s.started <= p.Keys
    && forall m, d | m in s.started && Imports(p, m, d) :: d in s.started
  }

  /** In any graph, cyclic or not, a top-level call runs exactly the reachable modules that were not
      started before; with StartsOnce, each of them once. */
  lemma CallRunsReachable(p: Program, s: State, id: Id)
    requires Closed(p) && id in p && NeverThrows(p) && Settled(p, s)
    ensures var t := Call(p, s, id).state;
            && Settled(p, t)
            && forall m :: m in t.started <==> m in s.started || Reaches(p, id, m)
  {
    CallGrows(p, s, id);
    var t := Call(p, s, id).state;
    forall m | Reaches(p, id, m) ensures m in t.started {
      var path :| IsPath(p, path) && path[0] == id && path[|path| - 1] == m;
      ClosedUnderPaths(p, t, path);
    }
  }

  lemma {:induction false} ClosedUnderPaths(p: Program, t: State, path: seq<Id>)
    requires Settled(p, t) && IsPath(p, path) && path[0] in t.started
    ensures path[|path| - 1] in t.started
    decreases |path|
  {
    if |path| > 1 {
      assert Imports(p, path[0], path[1]);
      var rest := path[1..];
      forall i | 0 <= i < |rest| - 1 ensures Imports(p, rest[i], rest[i + 1]) {
        assert rest[i] == path[i + 1] && rest[i + 1] == path[i + 2];
        assert Imports(p, path[i + 1], path[i + 2]);
      }
      ClosedUnderPaths(p, t, rest);
    }
  }

  // ---- Without cycles a dependency has ended before its importer goes on ----------------------

  ghost predicate Ranked(p: Program, rank: Id -> int) {
    forall m, d | m in p && Imports(p, m, d) :: rank(d) < rank(m)
  }

  /** When a body goes on after an import, the imported module has finished, or it has failed. */
  ghost predicate DependenciesEnded(s: State) {
    forall i, m, d, got | 0 <= i < |s.log| && s.log[i] == Continued(m, d, got) ::
      Finished(d) in s.log[..i] || Failed(d) in s.log[..i]
  }

  /** The modules that are running are further up than r. */
  ghost predicate RunningAbove(s: State, rank: Id -> int, r: int) {
    forall m | m in s.started && !Ended(s, m) :: rank(m) > r
  }

  lemma LogKeepsOrder(s: State, t: State, e: Event)
    requires DependenciesEnded(s) && t.log == s.log + [e] && (e.Continued? ==> Ended(s, e.imported))
    ensures DependenciesEnded(t)
  {
    forall i, m, d, got | 0 <= i < |t.log| && t.log[i] == Continued(m, d, got)
      ensures Finished(d) in t.log[..i] || Failed(d) in t.log[..i]
    {
      if i < |s.log| { assert t.log[..i] == s.log[..i]; } else { assert t.log[..i] == s.log; }
    }
  }

  lemma StillAbove(s: State, t: State, m: Id, rank: Id -> int, r: int)
    requires RanWhole(s, t, m) && RunningAbove(s, rank, r)
    ensures RunningAbove(t, rank, r)
  {
    forall x | x in t.started && !Ended(t, x) ensures rank(x) > r {
      assert x in t.started - s.started ==> Ended(t, x);
      if x != m { assert SameModule(s, t, x); }
    }
  }

  lemma {:induction false} CallInOrder(p: Program, s: State, id: Id, rank: Id -> int)
    requires Closed(p) && id in p && Ranked(p, rank) && EndsOnce(s)
    requires DependenciesEnded(s) && RunningAbove(s, rank, rank(id))
    ensures DependenciesEnded(Call(p, s, id).state)
    ensures Ended(Call(p, s, id).state, id)
    decreases p.Keys - s.started, 0
  {
    hide DependenciesEnded;
    CallRunsWhole(p, s, id);
    if id !in s.started {
      var body := p[id].body;
      var s1 := s.(started := s.started + {id}, log := s.log + [Started(id)]);
      LogKeepsOrder(s, s1, Started(id));
      assert forall e :: e in s1.log <==> e in s.log || e == Started(id);
      forall d | Import(d) in body || CatchImport(d) in body
        ensures rank(d) < rank(id) && RunningAbove(s1, rank, rank(d))
      {
        assert Imports(p, id, d);
      }
      BodyInOrder(p, s1, id, body, rank);
      var ran := RunBody(p, s1, id, body);
      LogKeepsOrder(ran.state, Call(p, s, id).state, if ran.outcome.Threw? then Failed(id) else Finished(id));
    }
  }

  lemma {:induction false} BodyInOrder(p: Program, s: State, m: Id, steps: seq<Step>, rank: Id -> int)
    requires Closed(p) && StepsClosed(p, steps) && Ranked(p, rank) && EndsOnce(s) && m in s.started
    requires DependenciesEnded(s)
    requires forall d | Import(d) in steps || CatchImport(d) in steps :: RunningAbove(s, rank, rank(d))
    ensures DependenciesEnded(RunBody(p, s, m, steps).state)
    decreases p.Keys - s.started, 1 + |steps|
  {
    hide DependenciesEnded, EndsOnce, RunningAbove, RanWhole;
    if steps != [] && steps[0] != Throws {
      var step, more := steps[0], steps[1..];
      assert step in steps;
      assert forall x :: x in more ==> x in steps;
      if step.SetExports? {
        var s' := Replace(s, m, step.version);
        OwnStep(s, m, m, Threw, step.version);
        LogKeepsOrder(s, s', Replaced(m, step.version));
        forall d | Import(d) in more || CatchImport(d) in more ensures RunningAbove(s', rank, rank(d)) {
          StillAbove(s, s', m, rank, rank(d));
        }
        BodyInOrder(p, s', m, more, rank);
      } else {
        var d := step.id;
        CallInOrder(p, s, d, rank);
        var ran := Call(p, s, d);
        if step.CatchImport? || ran.outcome.Returned? {
          var t := Continue(ran, m, d);
          LogKeepsOrder(ran.state, t, Continued(m, d, ran.outcome));
          ImportStep(p, s, m, d);
          forall d' | Import(d') in more || CatchImport(d') in more ensures RunningAbove(t, rank, rank(d')) {
            StillAbove(s, t, m, rank, rank(d'));
          }
          BodyInOrder(p, t, m, more, rank);
        }
      }
    }
  }

  lemma ImportStep(p: Program, s: State, m: Id, d: Id)
    requires Closed(p) && d in p && EndsOnce(s) && m in s.started
    ensures var t := Continue(Call(p, s, d), m, d); EndsOnce(t) && RanWhole(s, t, m)
  {
    CallRunsWhole(p, s, d);
    var ran := Call(p, s, d);
    assert SameModule(s, ran.state, m);
    OwnStep(ran.state, m, d, ran.outcome, 0);
    RanWholeTrans(s, ran.state, Continue(ran, m, d), m);
  }

  /** In an acyclic graph, whatever throws, an importer never goes on while what it imported is still
      running; and it goes on without a finished dependency exactly when that dependency failed
      earlier. The module called has finished if the call returns, and failed if it throws. */
  lemma AcyclicInOrder(p: Program, id: Id, rank: Id -> int)
    requires Closed(p) && id in p && Ranked(p, rank)
    ensures var r := Call(p, FRESH, id);
            && (forall i, m, d, got | 0 <= i < |r.state.log| && r.state.log[i] == Continued(m, d, got) ::
                  Finished(d) !in r.state.log[..i] <==> Failed(d) in r.state.log[..i])
            && (r.outcome.Returned? <==> Finished(id) in r.state.log)
            && (r.outcome.Threw? <==> Failed(id) in r.state.log)
  {
    CallInOrder(p, FRESH, id, rank);
    CallRunsWhole(p, FRESH, id);
  }

  /** An acyclic program in which module 1 goes on twice after importing 2, which never finishes. */
  lemma FailedDependency()
    ensures var p := map[1 := Module(Esm, [CatchImport(2), Import(2)]), 2 := Module(Esm, [Throws])];
            && Closed(p) && Ranked(p, (m: Id) => -m)
            && Call(p, FRESH, 1).outcome == Returned(Result(1))
            && Call(p, FRESH, 1).state.log ==
               [Started(1), Started(2), Failed(2), Continued(1, 2, Threw), Continued(1, 2, Returned(Undefined)), Finished(1)]
  {
    var body := [CatchImport(2), Import(2)];
    var p := map[1 := Module(Esm, body), 2 := Module(Esm, [Throws])];
    assert Closed(p);
    var s1 := State({1}, {}, map[], [Started(1)]);
    var s2 := State({1, 2}, {}, map[], [Started(1), Started(2)]);
    assert s1 == State({} + {1}, {}, map[], [] + [Started(1)]);
    assert s2 == s1.(started := s1.started + {2}, log := s1.log + [Started(2)]);
    assert RunBody(p, s2, 2, [Throws]) == Ran(s2, Threw);
    var s3 := State({1, 2}, {}, map[], [Started(1), Started(2), Failed(2)]);
    assert Call(p, s1, 2) == Ran(s3, Threw);
    assert body[1..] == [Import(2)] && [Import(2)][1..] == [];
    var s4 := Continue(Ran(s3, Threw), 1, 2);
    assert Call(p, s4, 2) == Ran(s4, Returned(Undefined));
    var s5 := Continue(Call(p, s4, 2), 1, 2);
    assert RunBody(p, s4, 1, [Import(2)]) == RunBody(p, s5, 1, []);
    assert RunBody(p, s1, 1, body) == Ran(s5, Returned(Undefined));
  }

  /** Without throws a dependency has always finished before its importer goes on. */
  lemma AcyclicFinishedFirst(p: Program, id: Id, rank: Id -> int)
    requires Closed(p) && id in p && NeverThrows(p) && Ranked(p, rank)
    ensures var r := Call(p, FRESH, id);
            && r.outcome.Returned?
            && forall i, m, d, got | 0 <= i < |r.state.log| && r.state.log[i] == Continued(m, d, got) ::
                 Finished(d) in r.state.log[..i]
  {
    AcyclicInOrder(p, id, rank);
    CallGrows(p, FRESH, id);
    CallRunsWhole(p, FRESH, id);
    var t := Call(p, FRESH, id).state;
    forall d ensures Failed(d) !in t.log {
      assert Ended(t, d) ==> d in t.finished;
    }
  }
}
