/** The rendezvous between long polls and state changes (src/ext.longpoll.cc): the sections under the
    lock are atomic steps, a wait gives the lock up, and a signalled call takes it again later. */
module LongPoll {

  datatype View = View(log: string, logSelection: string, text: string)

  datatype Poller = Poller(id: nat, view: View)

  /** `waiting` calls are parked on the condition variable and not signalled, `awake` ones have been
      signalled or have timed out and have yet to take the lock again. `calls` and `answers` record
      with which view a call came and which one it was given. */
  datatype State = State(
    latest: View,
    pollers: seq<Poller>,
    waiting: set<nat>,
    awake: set<nat>,
    calls: map<nat, View>,
    answers: map<nat, View>)

  datatype Step =
    | Enter(id: nat, view: View, tasksSame: bool)
    | NotifyState(view: View)
    | NotifyAll
    | TimeOut(id: nat)
    | Resume(id: nat)

  predicate Enabled(s: State, step: Step) {
    match step
    case Enter(id, _, _) => id !in s.calls
    case TimeOut(id) => id in s.waiting
    case Resume(id) => id in s.awake
    case _ => true
  }

  function Erased(ps: seq<Poller>, id: nat): seq<Poller> {
    if ps == [] then []
    else if ps[0].id == id then ps[1..]
    else [ps[0]] + Erased(ps[1..], id)
  }

  predicate SomeDiffers(ps: seq<Poller>, view: View) {
    exists i :: 0 <= i < |ps| && ps[i].view != view
  }

  /** What a step does to the state. */
  function Next(s: State, step: Step): State
    requires Enabled(s, step)
  {
    match step
    case Enter(id, view, tasksSame) =>
      var s' := s.(calls := s.calls[id := view]);
      if view == s.latest && tasksSame then
        s'.(pollers := [Poller(id, view)] + s.pollers, waiting := s.waiting + {id})
      else s'.(answers := s.answers[id := s.latest])
    case NotifyState(view) =>
      var s' := s.(latest := view);
      if SomeDiffers(s.pollers, view) then s'.(waiting := {}, awake := s.awake + s.waiting) else s'
    case NotifyAll => s.(waiting := {}, awake := s.awake + s.waiting)
    case TimeOut(id) => s.(waiting := s.waiting - {id}, awake := s.awake + {id})
    case Resume(id) =>
      s.(pollers := Erased(s.pollers, id), awake := s.awake - {id}, answers := s.answers[id := s.latest])
  }

  // ---------- Every run ----------

  function Start(latest: View): State {
    State(latest, [], {}, {}, map[], map[])
  }

  predicate Listed(ps: seq<Poller>, id: nat) {
    exists i :: 0 <= i < |ps| && ps[i].id == id
  }

  ghost predicate UniqueIds(ps: seq<Poller>) {
    forall i, j :: 0 <= i < j < |ps| ==> ps[i].id != ps[j].id
  }

  /** Every call is parked, on its way back, or answered, and only the first two are listed, each once
      and with the view it came with; a parked call that was not signalled has seen the latest state. */
  ghost predicate Inv(s: State) {
    && s.waiting !! s.awake && s.waiting + s.awake !! s.answers.Keys
    && s.waiting + s.awake + s.answers.Keys == s.calls.Keys
    && (forall id :: Listed(s.pollers, id) <==> id in s.waiting + s.awake)
    && UniqueIds(s.pollers)
    && (forall i :: 0 <= i < |s.pollers| ==>
      s.pollers[i].id in s.calls && s.calls[s.pollers[i].id] == s.pollers[i].view)
    && forall id :: id in s.waiting ==> s.calls[id] == s.latest
  }

  lemma {:induction false} ErasedIs(ps: seq<Poller>, id: nat)
    requires UniqueIds(ps)
    ensures forall p :: p in Erased(ps, id) <==> p in ps && p.id != id
    ensures UniqueIds(Erased(ps, id))
  {
    if ps != [] {
      assert UniqueIds(ps[1..]);
      if ps[0].id == id {
        assert forall j | 0 <= j < |ps[1..]| :: ps[1..][j].id != id;
      } else {
        ErasedIs(ps[1..], id);
        var rest := Erased(ps[1..], id);
        assert forall j | 0 <= j < |rest| :: rest[j] in ps[1..];
      }
    }
  }

  lemma ListedMember(ps: seq<Poller>, id: nat)
    ensures Listed(ps, id) <==> exists p :: p in ps && p.id == id
  {
    if p :| p in ps && p.id == id {
      var i :| 0 <= i < |ps| && ps[i] == p;
    }
  }

  lemma ListedCons(p: Poller, ps: seq<Poller>, id: nat)
    ensures Listed([p] + ps, id) <==> p.id == id || Listed(ps, id)
  {
    if Listed(ps, id) {
      var i :| 0 <= i < |ps| && ps[i].id == id;
      assert ([p] + ps)[i + 1].id == id;
    }
    if p.id == id {
      assert ([p] + ps)[0].id == id;
    }
  }

  /** A call that has nothing to wait for is answered. */
  lemma AnswerKeeps(s: State, id: nat, view: View)
    requires Inv(s) && id !in s.calls
    ensures Inv(s.(calls := s.calls[id := view], answers := s.answers[id := s.latest]))
  {
    forall i | 0 <= i < |s.pollers| ensures s.pollers[i].id != id {
      assert s.pollers[i].id in s.calls;
    }
  }

  /** A call that has seen the latest state is parked. */
  lemma ParkKeeps(s: State, id: nat)
    requires Inv(s) && id !in s.calls
    ensures Inv(s.(calls := s.calls[id := s.latest], pollers := [Poller(id, s.latest)] + s.pollers,
                   waiting := s.waiting + {id}))
  {
    forall i | 0 <= i < |s.pollers| ensures s.pollers[i].id != id {
      assert s.pollers[i].id in s.calls;
    }
    forall other ensures Listed([Poller(id, s.latest)] + s.pollers, other)
      <==> other in s.waiting + {id} + s.awake
    {
      ListedCons(Poller(id, s.latest), s.pollers, other);
    }
  }

  lemma EnterKeeps(s: State, step: Step)
    requires Inv(s) && step.Enter? && Enabled(s, step)
    ensures Inv(Next(s, step))
  {
    if step.view == s.latest && step.tasksSame {
      ParkKeeps(s, step.id);
    } else {
      AnswerKeeps(s, step.id, step.view);
    }
  }

  lemma ResumeKeeps(s: State, step: Step)
    requires Inv(s) && step.Resume? && Enabled(s, step)
    ensures Inv(Next(s, step))
  {
    var s' := Next(s, step);
    ErasedIs(s.pollers, step.id);
    forall id ensures Listed(s'.pollers, id) <==> id in s'.waiting + s'.awake {
      ListedMember(s.pollers, id);
      ListedMember(s'.pollers, id);
    }
    forall i | 0 <= i < |s'.pollers|
      ensures s'.pollers[i].id in s'.calls && s'.calls[s'.pollers[i].id] == s'.pollers[i].view
    {
      assert s'.pollers[i] in s.pollers;
    }
  }

  lemma ListedViews(s: State, view: View)
    requires Inv(s)
    ensures SomeDiffers(s.pollers, view) <==> !(forall id :: id in s.waiting + s.awake ==> s.calls[id] == view)
  {
    if SomeDiffers(s.pollers, view) {
      var i :| 0 <= i < |s.pollers| && s.pollers[i].view != view;
      assert Listed(s.pollers, s.pollers[i].id);
    } else {
      forall id | id in s.waiting + s.awake ensures s.calls[id] == view {
        assert Listed(s.pollers, id);
        var i :| 0 <= i < |s.pollers| && s.pollers[i].id == id;
      }
    }
  }

  /** A new state signals every parked call unless it is the state that every listed call has seen, and
      then the parked ones stay parked; nobody is taken off the list, and nobody is answered. */
  lemma NotifyKeeps(s: State, step: Step)
    requires Inv(s) && step.NotifyState?
    ensures var s' := Next(s, step);
      var seen := forall id :: id in s.waiting + s.awake ==> s.calls[id] == step.view;
      && Inv(s') && s'.latest == step.view
      && s'.waiting == (if seen then s.waiting else {})
      && s'.awake == (if seen then s.awake else s.awake + s.waiting)
      && s'.pollers == s.pollers && s'.calls == s.calls && s'.answers == s.answers
  {
    ListedViews(s, step.view);
  }

  lemma StepKeeps(s: State, step: Step)
    requires Inv(s) && Enabled(s, step)
    ensures Inv(Next(s, step))
  {
    match step
    case Enter(_, _, _) => EnterKeeps(s, step);
    case Resume(_) => ResumeKeeps(s, step);
    case NotifyState(_) => NotifyKeeps(s, step);
    case _ =>
  }

  /** The states a list of steps leads through, if each is enabled where it comes. */
  ghost predicate IsRun(states: seq<State>, steps: seq<Step>) {
    && |states| == |steps| + 1 && states[0] == Start(states[0].latest)
    && forall k :: 0 <= k < |steps| ==> Enabled(states[k], steps[k]) && states[k + 1] == Next(states[k], steps[k])
  }

  lemma {:induction false} RunKeeps(states: seq<State>, steps: seq<Step>, k: nat)
    requires IsRun(states, steps) && k < |states|
    ensures Inv(states[k])
  {
    if k > 0 {
      RunKeeps(states, steps, k - 1);
      StepKeeps(states[k - 1], steps[k - 1]);
    }
  }

  lemma {:induction false} CallsStay(states: seq<State>, steps: seq<Step>, i: nat, k: nat, id: nat)
    requires IsRun(states, steps) && i <= k < |states| && id in states[i].calls
    ensures id in states[k].calls && states[k].calls[id] == states[i].calls[id]
    decreases k - i
  {
    if i < k {
      CallsStay(states, steps, i, k - 1, id);
      assert states[k] == Next(states[k - 1], steps[k - 1]);
    }
  }

  /** A call that has come is parked from then on until it is signalled, and never again. */
  lemma {:induction false} NeverParksAgain(states: seq<State>, steps: seq<Step>, i: nat, k: nat, id: nat)
    requires IsRun(states, steps) && i <= k < |states| && id in states[i].calls && id in states[k].waiting
    ensures id in states[i].waiting
    decreases k - i
  {
    if i < k {
      var s, step := states[k - 1], steps[k - 1];
      CallsStay(states, steps, i, k - 1, id);
      assert id in s.waiting;
      NeverParksAgain(states, steps, i, k - 1, id);
    }
  }

  /** No change is lost: while a call is parked without having been signalled, the latest state is, at
      every moment since it came, the one it came with. */
  lemma NoChangeLost(states: seq<State>, steps: seq<Step>, i: nat, k: nat, j: nat, id: nat)
    requires IsRun(states, steps) && i <= k <= j < |states|
    requires id in states[i].calls && id in states[j].waiting
    ensures states[k].latest == states[i].calls[id]
  {
    CallsStay(states, steps, i, k, id);
    NeverParksAgain(states, steps, k, j, id);
    RunKeeps(states, steps, k);
  }

  /** The call is signalled by the very step that changes the state. */
  lemma ChangeSignals(states: seq<State>, steps: seq<Step>, k: nat, id: nat)
    requires IsRun(states, steps) && k < |steps| && id in states[k].waiting
    requires states[k + 1].latest != states[k].latest
    ensures steps[k].NotifyState? && id in states[k + 1].awake
  {
    RunKeeps(states, steps, k);
    RunKeeps(states, steps, k + 1);
    var s := states[k];
    assert Listed(s.pollers, id);
    var i :| 0 <= i < |s.pollers| && s.pollers[i].id == id;
    assert s.pollers[i].view != states[k + 1].latest;
  }

  /** An answer is the state that was the latest when the call released the lock, and it stays. */
  lemma {:induction false} AnswerIsLatest(states: seq<State>, steps: seq<Step>, k: nat, id: nat)
    returns (at: nat)
    requires IsRun(states, steps) && k < |states| && id in states[k].answers
    ensures 0 < at <= k && id !in states[at - 1].answers && id in states[at].answers
    ensures states[k].answers[id] == states[at].answers[id] == states[at].latest
    decreases k
  {
    assert k > 0;
    var s, step := states[k - 1], steps[k - 1];
    RunKeeps(states, steps, k - 1);
    if id in s.answers {
      at := AnswerIsLatest(states, steps, k - 1, id);
      assert !(step.Enter? && step.id == id) && !(step.Resume? && step.id == id);
    } else {
      at := k;
    }
  }

  // ---------- The shared object ----------

  class Pollers {
    var list: seq<Poller>
    var latest: View
    ghost var waiting: set<nat>
    ghost var awake: set<nat>
    ghost var calls: map<nat, View>
    ghost var answers: map<nat, View>

    /** The object, the condition variable and the history as a state. */
    ghost function Now(): State
      reads this
    {
      State(latest, list, waiting, awake, calls, answers)
    }

    constructor (latest: View)
      ensures Now() == Start(latest) && Inv(Now())
    {
      list, this.latest := [], latest;
      waiting, awake, calls, answers := {}, {}, map[], map[];
    }

    /** The section of `longpoll` up to the wait, or to its end when there is none. */
    method Begin(id: nat, view: View, tasksSame: bool) returns (answer: View, parked: bool)
      requires Inv(Now()) && id !in calls
      modifies this
      ensures Now() == Next(old(Now()), Enter(id, view, tasksSame)) && Inv(Now())
      ensures parked <==> id in waiting
      ensures !parked ==> answer == latest == answers[id]
    {
      EnterKeeps(Now(), Enter(id, view, tasksSame));
      var viewsSame := view.log == latest.log && view.logSelection == latest.logSelection
        && view.text == latest.text;
      assert viewsSame <==> view == latest;
      parked := viewsSame && tasksSame;
      answer := latest;
      calls := calls[id := view];
      if parked {
        list := [Poller(id, view)] + list;
        waiting := waiting + {id};
      } else {
        answers := answers[id := answer];
      }
    }

    /** The section of `longpoll` after the wait. */
    method End(id: nat) returns (answer: View)
      requires Inv(Now()) && id in awake
      modifies this
      ensures Now() == Next(old(Now()), Resume(id)) && Inv(Now())
      ensures answer == latest == answers[id]
    {
      ResumeKeeps(Now(), Resume(id));
      list := Erased(list, id);
      awake := awake - {id};
      answer := latest;
      answers := answers[id := answer];
    }

    /** `notify_pollers` with a new state. */
    method Notify(view: View)
      requires Inv(Now())
      modifies this
      ensures Now() == Next(old(Now()), NotifyState(view)) && Inv(Now())
    {
      NotifyKeeps(Now(), NotifyState(view));
      var i := 0;
      while i < |list|
        invariant 0 <= i <= |list| && waiting == old(waiting) && awake == old(awake)
        invariant forall k :: 0 <= k < i ==> list[k].view == view
      {
        if list[i].view.log != view.log || list[i].view.logSelection != view.logSelection
          || list[i].view.text != view.text
        {
          assert list[i].view != view;
          waiting, awake := {}, awake + waiting;
          break;
        }
        assert list[i].view == view;
        i := i + 1;
      }
      latest := view;
    }

    /** `notify_pollers` without one. */
    method NotifyEverybody()
      requires Inv(Now())
      modifies this
      ensures Now() == Next(old(Now()), NotifyAll) && Inv(Now())
    {
      waiting, awake := {}, awake + waiting;
    }
  }
}
