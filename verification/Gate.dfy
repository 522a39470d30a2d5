/** The pause control of a running ingestion. A channel is known by its number. */
module Gate {

  datatype Channel = None | Chan(id: nat)

  /** The gate, and which of the channels made so far are closed. */
  datatype State = State(paused: bool, resume: Channel, pause: Channel, made: nat, closed: set<nat>) {

    function Made(): (State, nat) {
      (this.(made := made + 1), made)
    }

    /** The pause signal, made when it is first needed. */
    function Signal(): (State, nat) {
      if pause.Chan? then (this, pause.id)
      else
        var (s, c) := Made();
        (s.(pause := Chan(c)), c)
    }

    function Paused(): State {
      if paused then this
      else
        var (s, r) := Made();
        var (t, p) := s.(paused := true, resume := Chan(r)).Signal();
        t.(closed := t.closed + {p})
    }

    function Resumed(): State {
      if !paused then this
      else
        var released := if resume.Chan? then closed + {resume.id} else closed;
        var (s, p) := this.(paused := false, resume := None, closed := released).Made();
        s.(pause := Chan(p))
    }
  }

  const NEW := State(false, None, None, 0, {})

  /** What holds between two calls. */
  ghost predicate Sound(s: State) {
    && (forall c :: c in s.closed ==> c < s.made)
    && (s.pause.Chan? ==> s.pause.id < s.made && (s.pause.id in s.closed <==> s.paused))
    && (s.resume.Chan? <==> s.paused)
    && (s.paused ==> s.pause.Chan? && s.resume.id < s.made && s.resume.id !in s.closed && s.resume != s.pause)
  }

  class Gate {
    var paused: bool
    var resume: Channel
    var pause: Channel
    var made: nat
    var closed: set<nat>

    ghost function Now(): State
      reads this
    {
      State(paused, resume, pause, made, closed)
    }

    ghost predicate Valid()
      reads this
    {
      Sound(Now())
    }

    constructor ()
      ensures Valid() && Now() == NEW
    {
      paused, resume, pause, made, closed := false, None, None, 0, {};
    }

    method Make() returns (c: nat)
      modifies this`made
      ensures c == old(made) && made == old(made) + 1
    {
      c := made;
      made := made + 1;
    }

    /** Closing a closed channel would stop the program. */
    method Close(c: nat)
      requires c < made && c !in closed
      modifies this`closed
      ensures closed == old(closed) + {c}
    {
      closed := closed + {c};
    }

    method PauseChanLocked() returns (c: nat)
      modifies this`pause, this`made
      ensures (Now(), c) == old(Now().Signal())
    {
      if pause.None? {
        c := Make();
        pause := Chan(c);
      } else {
        c := pause.id;
      }
    }

    /** The channel that closes when a pause begins. */
    method Pausing() returns (c: nat)
      requires Valid()
      modifies this`pause, this`made
      ensures Valid() && (Now(), c) == old(Now().Signal())
      ensures c in closed <==> paused
    {
      c := PauseChanLocked();
    }

    method Pause()
      requires Valid()
      modifies this
      ensures Valid() && paused && Now() == old(Now()).Paused()
    {
      if paused {
        return;
      }
      paused := true;
      var r := Make();
      resume := Chan(r);
      var p := PauseChanLocked();
      Close(p);
    }

    method Resume()
      requires Valid()
      modifies this
      ensures Valid() && !paused && Now() == old(Now()).Resumed()
      ensures old(paused) ==> old(resume).Chan? && old(resume).id in closed
    {
      if !paused {
        return;
      }
      paused := false;
      Close(resume.id);
      resume := None;
      var p := Make();
      pause := Chan(p);
    }
  }

  // ---- Waiters ----------------------------------------------------------------------------------------

  /** A call of Wait: about to look, blocked on the channel it found, or over. A Listener holds a pause signal. */
  datatype Waiter = Looking | Blocked(on: nat) | Through | Cancelled | Listening(on: nat)

  datatype System = System(gate: State, waiters: map<nat, Waiter>)

  datatype Action = Pause | Resume | Enter(w: nat) | Listen(w: nat) | Look(w: nat) | Wake(w: nat) | Cancel(w: nat)

  /** One step. A blocked waiter wakes only when its channel is closed, and then looks again. */
  function Next(s: System, a: Action): System {
    match a
    case Pause => s.(gate := s.gate.Paused())
    case Resume => s.(gate := s.gate.Resumed())
    case Enter(w) => if w in s.waiters then s else s.(waiters := s.waiters[w := Looking])
    case Listen(w) =>
      if w in s.waiters then s
      else
        var (g, c) := s.gate.Signal();
        System(g, s.waiters[w := Listening(c)])
    case Look(w) =>
      if w in s.waiters && s.waiters[w].Looking? then
        s.(waiters := s.waiters[w := if s.gate.paused && s.gate.resume.Chan? then Blocked(s.gate.resume.id) else Through])
      else s
    case Wake(w) =>
      if w in s.waiters && s.waiters[w].Blocked? && s.waiters[w].on in s.gate.closed then
        s.(waiters := s.waiters[w := Looking])
      else s
    case Cancel(w) =>
      if w in s.waiters && (s.waiters[w].Looking? || s.waiters[w].Blocked?) then
        s.(waiters := s.waiters[w := Cancelled])
      else s
  }

  function Run(actions: seq<Action>): System {
    if actions == [] then System(NEW, map[]) else Next(Run(actions[..|actions| - 1]), actions[|actions| - 1])
  }

  /** A waiter's channel is closed, unless the pause it waits for is still on; a listener's is closed, unless no pause
      has begun since it asked. */
  ghost predicate NotForgotten(g: State, w: Waiter) {
    && (w.Blocked? ==> w.on < g.made && (w.on in g.closed || (g.paused && g.resume == Chan(w.on))))
    && (w.Listening? ==> w.on < g.made && (w.on in g.closed || (!g.paused && g.pause == Chan(w.on))))
  }

  ghost predicate Fair(s: System) {
    Sound(s.gate) && forall w :: w in s.waiters ==> NotForgotten(s.gate, s.waiters[w])
  }

  lemma StepIsFair(s: System, a: Action)
    requires Fair(s)
    ensures Fair(Next(s, a)) && s.gate.closed <= Next(s, a).gate.closed
  {
    var t := Next(s, a);
    forall w | w in t.waiters ensures NotForgotten(t.gate, t.waiters[w]) {
      assert w in s.waiters ==> NotForgotten(s.gate, s.waiters[w]);
    }
  }

  lemma {:induction false} AlwaysFair(actions: seq<Action>)
    ensures Fair(Run(actions))
  {
    if actions != [] {
      AlwaysFair(actions[..|actions| - 1]);
      StepIsFair(Run(actions[..|actions| - 1]), actions[|actions| - 1]);
    }
  }

  /** No wake-up is lost, whatever the order of calls: once the gate is open every blocked waiter can wake, and it
      then finds its way through; while it is shut every listener has been told. */
  lemma NoLostWakeUp(actions: seq<Action>, w: nat)
    requires w in Run(actions).waiters
    ensures var s := Run(actions); var waiter := s.waiters[w];
            && (waiter.Blocked? && !s.gate.paused ==>
                  w in Run(actions + [Wake(w), Look(w)]).waiters && Run(actions + [Wake(w), Look(w)]).waiters[w] == Through)
            && (waiter.Listening? && s.gate.paused ==> waiter.on in s.gate.closed)
  {
    AlwaysFair(actions);
    var s := Run(actions);
    assert NotForgotten(s.gate, s.waiters[w]);
    var more, most := actions + [Wake(w)], actions + [Wake(w), Look(w)];
    assert more[..|actions|] == actions && most[..|more|] == more;
    assert Run(more) == Next(s, Wake(w)) && Run(most) == Next(Run(more), Look(w));
  }

  /** A channel is closed at most once: what a call closes was open until then. */
  lemma ClosedOnce(actions: seq<Action>)
    ensures var g := Run(actions).gate;
            && (!g.paused ==> g.Signal().1 !in g.closed)
            && (g.paused ==> g.resume.Chan? && g.resume.id !in g.closed)
            && (g.pause.Chan? ==> (g.pause.id in g.closed <==> g.paused))
  {
    AlwaysFair(actions);
  }

  /** Nobody slips through a shut gate: whoever is through has looked, at some point of the run, while it was open. */
  lemma {:induction false} ThroughWhileOpen(actions: seq<Action>, w: nat) returns (i: nat)
    requires w in Run(actions).waiters && Run(actions).waiters[w].Through?
    ensures i < |actions| && actions[i] == Look(w) && !Run(actions[..i]).gate.paused
  {
    var n := |actions| - 1;
    var before := actions[..n];
    if w in Run(before).waiters && Run(before).waiters[w].Through? {
      i := ThroughWhileOpen(before, w);
      assert before[..i] == actions[..i];
    } else {
      AlwaysFair(before);
      i := n;
    }
  }

  /** Whoever has been cancelled was cancelled while waiting, and stays so; nobody else's wait ends any other way. */
  lemma {:induction false} CancelledByCancel(actions: seq<Action>, w: nat)
    requires w in Run(actions).waiters && Run(actions).waiters[w].Cancelled?
    ensures Cancel(w) in actions
  {
    var n := |actions| - 1;
    var before := actions[..n];
    assert actions == before + [actions[n]];
    if w in Run(before).waiters && Run(before).waiters[w].Cancelled? {
      CancelledByCancel(before, w);
    }
  }

  /** A pause was called and no resume since. */
  ghost predicate PauseIsOn(actions: seq<Action>) {
    exists i :: 0 <= i < |actions| && actions[i] == Pause && Resume !in actions[i..]
  }

  lemma PauseGoesOn(before: seq<Action>, a: Action)
    ensures PauseIsOn(before + [a]) <==> a == Pause || (PauseIsOn(before) && a != Resume)
  {
    var all, n := before + [a], |before|;
    assert all[n] == a && all[n..] == [a];
    forall i | 0 <= i < n ensures all[i] == before[i] && all[i..] == before[i..] + [a] {
    }
    if i :| 0 <= i < n && before[i] == Pause && Resume !in before[i..] {
      assert a != Resume ==> all[i] == Pause && Resume !in all[i..];
    }
  }

  /** The gate is shut exactly when the last call that moved it was a pause. */
  lemma {:induction false} PausedIff(actions: seq<Action>)
    ensures Run(actions).gate.paused <==> PauseIsOn(actions)
  {
    if actions != [] {
      var n := |actions| - 1;
      PausedIff(actions[..n]);
      PauseGoesOn(actions[..n], actions[n]);
      assert actions == actions[..n] + [actions[n]];
      hide PauseIsOn;
    }
  }
}
