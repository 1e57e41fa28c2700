/** The round robin is fair, and the launched set only grows. */
module Scheduling {
  import opened Kernel
  import opened Chains
  import opened Refinement
  import opened Runs

  /** out lists the terminals that the timer ticks of a path switched to, in order; ticks held
      back inside a hardware interrupt or with a single terminal are not among them. */
  ghost predicate Serves(r: (State, Event, State) -> bool, s: State, evs: seq<Event>, s': State, out: seq<int>)
    decreases |evs|, 0
  {
    if evs == [] then s' == s && out == []
    else exists m :: r(s, evs[0], m) && ServesAfter(r, s, evs[0], m, evs[1..], s', out)
  }

  ghost predicate ServesAfter(r: (State, Event, State) -> bool, s: State, ev: Event, m: State, rest: seq<Event>,
                              s': State, out: seq<int>)
    decreases |rest|, 1
  {
    if ev.Tick? && TakesTurn(s.p)
    then out != [] && out[0] == m.p.serviced && Serves(r, m, rest, s', out[1..])
    else Serves(r, m, rest, s', out)
  }

  /** The next k terminals in cyclic order. */
  function Rotation(launched: set<int>, t: int, k: nat): seq<int>
    decreases k
  {
    if k == 0 then []
    else [NextLaunched(launched, t)] + Rotation(launched, NextLaunched(launched, t), k - 1)
  }

  /** How one step moves the launched set and the serviced terminal. */
  ghost predicate Moves(p: Proc, ev: Event, r: Proc) {
    && HasCurrent(p)
    && p.launched <= r.launched
    && (r.launched == p.launched ==>
          r.serviced == if ev.Tick? && TakesTurn(p) then NextLaunched(p.launched, p.serviced) else p.serviced)
  }

  lemma StepMoves(s: State, a: Abstract, ev: Event)
    requires Related(s, a) && Guard(s, ev) && Defined(s, ev)
    ensures Moves(s.p, ev, Step(s, ev).p)
  {
    RelatedOk(s, a);
    match ev
    case AltKey(t, id) => AltKeyMoves(s, t, id);
    case Halt(status) => HaltMoves(s.p, status);
    case Execute(command, stack, id) => ExecuteMoves(s.p, Loader.Loadable(s.img, command, stack), id);
    case Tick(id) => TickMoves(s.p, a.stacks, id);
    case _ =>
  }

  lemma ExecuteMoves(p: Proc, loadable: bool, id: int)
    requires HasCurrent(p)
    ensures Moves(p, Exception, InternalExecute(p, loadable, USER_EXECUTE, id))
  {
  }

  lemma TickMoves(p: Proc, st: Stacks, id: int)
    requires Chained(p, st)
    ensures CanTick(p) && Moves(p, Tick(id), TickProc(p, id))
  {
    TurnIsSchedule(p, st);
    TickExact(p, st, id);
  }

  lemma HaltMoves(p: Proc, status: int)
    requires CanHalt(p)
    ensures Moves(p, Halt(0), HaltProc(p, status))
  {
  }

  lemma AltKeyMoves(s: State, t: int, id: int)
    requires HasCurrent(s.p) && IsTerminal(t) && Mapped(s.v, s.p.top[s.p.visible]) && Current(s.p) in s.p.used
    ensures Moves(s.p, AltKey(t, id), AltKeyStep(s, t, id).p)
  {
    if t != s.p.visible && t !in s.p.launched && t != 0 && LeastFree(s.p.used) != FAILURE {
      LaunchEffect(s.p, t, id, Current(s.p), LeastFree(s.p.used));
    }
  }

  /** The launched set never shrinks, and while it stays the same the ticks rotate. */
  lemma {:induction false} TicksRotate(r: (State, Event, State) -> bool, inv: State -> bool, s: State,
                                       evs: seq<Event>, s': State, out: seq<int>)
    requires inv(s) && Serves(r, s, evs, s', out)
    requires forall x, ev, y :: inv(x) && r(x, ev, y) ==> inv(y) && Moves(x.p, ev, y.p)
    ensures s.p.launched <= s'.p.launched
    ensures s'.p.launched == s.p.launched ==> out == Rotation(s.p.launched, s.p.serviced, |out|)
    decreases |evs|
  {
    if evs != [] {
      var m :| r(s, evs[0], m) && ServesAfter(r, s, evs[0], m, evs[1..], s', out);
      assert Moves(s.p, evs[0], m.p);
      if evs[0].Tick? && TakesTurn(s.p) {
        TicksRotate(r, inv, m, evs[1..], s', out[1..]);
        assert out == [out[0]] + out[1..];
      } else {
        TicksRotate(r, inv, m, evs[1..], s', out);
      }
      assert s'.p.launched == s.p.launched ==> m.p.launched == s.p.launched;
    }
  }

  lemma Subsets(launched: set<int>)
    requires 0 in launched && |launched| >= 2
    requires forall u :: u in launched ==> IsTerminal(u)
    ensures launched == {0, 1} || launched == {0, 2} || launched == {0, 1, 2}
  {
    assert forall u :: u in launched ==> u == 0 || u == 1 || u == 2;
    assert 1 !in launched && 2 !in launched ==> launched == {0};
    assert 1 in launched && 2 in launched ==> launched == {0, 1, 2};
    assert 1 in launched && 2 !in launched ==> launched == {0, 1};
    assert 1 !in launched && 2 in launched ==> launched == {0, 2};
  }

  lemma TwoSteps(launched: set<int>, t: int, u: int)
    requires launched == {t, u} && t != u && IsTerminal(t) && IsTerminal(u)
    ensures Rotation(launched, t, 2) == [u, t]
  {
    assert NextLaunched(launched, t) == u && NextLaunched(launched, u) == t;
    assert Rotation(launched, u, 1) == [t] + Rotation(launched, t, 0);
  }

  lemma ThreeSteps(launched: set<int>, t: int)
    requires 0 in launched && 1 in launched && 2 in launched && IsTerminal(t)
    ensures Rotation(launched, t, 3) == [(t + 1) % 3, (t + 2) % 3, t]
  {
    var a, b := (t + 1) % 3, (t + 2) % 3;
    assert NextLaunched(launched, t) == a && NextLaunched(launched, a) == b && NextLaunched(launched, b) == t;
    assert Rotation(launched, b, 1) == [t] + Rotation(launched, t, 0);
    assert Rotation(launched, a, 2) == [b] + Rotation(launched, b, 1);
  }

  /** A list that names every launched terminal exactly once and no other. */
  ghost predicate EachOnce(out: seq<int>, launched: set<int>) {
    && (forall t :: t in launched <==> t in out)
    && forall i, j :: 0 <= i < j < |out| ==> out[i] != out[j]
  }

  lemma TurnOfTwo(launched: set<int>, t: int, u: int)
    requires launched == {t, u} && t != u && IsTerminal(t) && IsTerminal(u)
    ensures |launched| == 2 && EachOnce(Rotation(launched, t, 2), launched)
  {
    assert launched - {t} == {u};
    TwoSteps(launched, t, u);
  }

  /** One turn of the rotation meets every launched terminal once. */
  lemma OneTurn(launched: set<int>, t: int)
    requires 0 in launched && |launched| >= 2 && t in launched
    requires forall u :: u in launched ==> IsTerminal(u)
    ensures EachOnce(Rotation(launched, t, |launched|), launched)
  {
    Subsets(launched);
    if launched == {0, 1, 2} {
      assert |{0, 1, 2}| == 3;
      FullTurn(launched, t);
    } else {
      var u := if t == 0 then (if launched == {0, 1} then 1 else 2) else 0;
      assert launched == {t, u};
      TurnOfTwo(launched, t, u);
    }
  }

  lemma FullTurn(launched: set<int>, t: int)
    requires launched == {0, 1, 2} && t in launched
    ensures EachOnce(Rotation(launched, t, 3), launched)
  {
    ThreeSteps(launched, t);
    AllThree(launched, t);
  }

  lemma AllThree(launched: set<int>, t: int)
    requires launched == {0, 1, 2} && IsTerminal(t)
    ensures EachOnce([(t + 1) % 3, (t + 2) % 3, t], launched)
  {
    assert forall u :: u in launched <==> u == 0 || u == 1 || u == 2;
  }

  ghost predicate HasChains(s: State) {
    exists a :: Related(s, a)
  }

  /** Fairness: while nothing is launched, any n scheduling ticks - n the number of launched
      terminals, whatever else happens in between - serve each launched terminal once. */
  lemma RoundRobinFair(s: State, a: Abstract, evs: seq<Event>, s': State, out: seq<int>)
    requires Related(s, a) && Serves(Guarded, s, evs, s', out)
    ensures s.p.launched <= s'.p.launched
    ensures s'.p.launched == s.p.launched && |out| == |s.p.launched| >= 2 ==> EachOnce(out, s.p.launched)
  {
    forall x, ev, y | HasChains(x) && Guarded(x, ev, y)
      ensures HasChains(y) && Moves(x.p, ev, y.p)
    {
      var e :| Related(x, e);
      StepMoves(x, e, ev);
      var f := StepRefines(x, e, ev);
    }
    TicksRotate(Guarded, HasChains, s, evs, s', out);
    if s'.p.launched == s.p.launched && |out| == |s.p.launched| >= 2 {
      OneTurn(s.p.launched, s.p.serviced);
    }
  }
}
