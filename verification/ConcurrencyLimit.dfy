/**
 The limit on concurrent requests: a channel with one slot per request in flight. A request sends to
 it without waiting and receives from it on the way out, whether its handler returns or panics.
 */
module ConcurrencyLimit {
  type Request = nat

  datatype Stage = Serving | Leaving(panicked: bool) | Done(panicked: bool) | Refused

  /** `slots` is how many values are in the channel. */
  datatype System = System(limit: nat, slots: nat, requests: map<Request, Stage>)

  datatype Action = Arrive(r: Request) | End(r: Request, panicked: bool) | Release(r: Request)

  function Step(s: System, a: Action): System {
    match a
    case Arrive(r) =>
      if r in s.requests then s
      else if s.slots < s.limit then s.(slots := s.slots + 1, requests := s.requests[r := Serving])
      else s.(requests := s.requests[r := Refused])
    case End(r, panicked) =>
      if r in s.requests && s.requests[r].Serving? then s.(requests := s.requests[r := Leaving(panicked)]) else s
    case Release(r) =>
      // A receive from an empty channel would wait.
      if r in s.requests && s.requests[r].Leaving? && s.slots > 0
      then s.(slots := s.slots - 1, requests := s.requests[r := Done(s.requests[r].panicked)])
      else s
  }

  ghost function Run(s: System, actions: seq<Action>): System
    decreases |actions|
  {
    if actions == [] then s else Run(Step(s, actions[0]), actions[1..])
  }

  function Idle(limit: nat): System {
    System(limit, 0, map[])
  }

  /** The requests between taking a slot and giving it back. */
  ghost function InFlight(s: System): set<Request> {
    set r | r in s.requests && (s.requests[r].Serving? || s.requests[r].Leaving?)
  }

  ghost predicate Inv(s: System) {
    s.slots == |InFlight(s)| <= s.limit
  }

  lemma StepKeepsSlots(s: System, a: Action)
    requires Inv(s)
    ensures Inv(Step(s, a)) && Step(s, a).limit == s.limit
    ensures InFlight(Step(s, a)) == match a
                                    case Arrive(r) => if r !in s.requests && s.slots < s.limit then InFlight(s) + {r} else InFlight(s)
                                    case End(_, _) => InFlight(s)
                                    case Release(r) => if r in s.requests && s.requests[r].Leaving? then InFlight(s) - {r} else InFlight(s)
  {
    var s' := Step(s, a);
    match a
    case Arrive(r) =>
      if r !in s.requests && s.slots < s.limit { assert InFlight(s') == InFlight(s) + {r}; }
      else { assert InFlight(s') == InFlight(s); }
    case End(_, _) =>
      assert InFlight(s') == InFlight(s);
    case Release(r) =>
      if r in s.requests && s.requests[r].Leaving? {
        assert r in InFlight(s);
        assert InFlight(s') == InFlight(s) - {r};
      } else {
        assert InFlight(s') == InFlight(s);
      }
  }

  lemma {:induction false} RunKeepsSlots(s: System, actions: seq<Action>)
    requires Inv(s)
    ensures Inv(Run(s, actions)) && Run(s, actions).limit == s.limit
    decreases |actions|
  {
    if actions == [] {
    } else {
      StepKeepsSlots(s, actions[0]);
      RunKeepsSlots(Step(s, actions[0]), actions[1..]);
    }
  }

  /** In every interleaving slots are conserved: as many are taken as there are requests in flight, never
      more than the limit; the next request is refused exactly when all are taken; no request on its way
      out finds the channel empty; and once nothing is in flight every slot is back. */
  lemma SlotsAreConserved(limit: nat, actions: seq<Action>, r: Request)
    ensures var s := Run(Idle(limit), actions);
            && s.slots == |InFlight(s)| <= limit
            && (r !in s.requests ==> (Step(s, Arrive(r)).requests[r] == Refused <==> |InFlight(s)| == limit))
            && (r in s.requests && s.requests[r].Leaving? ==> s.slots > 0 && Step(s, Release(r)).requests[r].Done?)
            && (InFlight(s) == {} ==> s.slots == 0)
  {
    var s := Run(Idle(limit), actions);
    assert InFlight(Idle(limit)) == {};
    RunKeepsSlots(Idle(limit), actions);
    if r in s.requests && s.requests[r].Leaving? {
      assert r in InFlight(s);
      assert s.slots != 0;
    }
  }

  // ---------------------------------------------------------------- each slot back once

  /** The steps of a run that receive from the channel on behalf of a request. */
  ghost function Releases(s: System, actions: seq<Action>, r: Request): nat
    decreases |actions|
  {
    if actions == [] then 0
    else (if Step(s, actions[0]).slots < s.slots && actions[0] == Release(r) then 1 else 0) + Releases(Step(s, actions[0]), actions[1..], r)
  }

  /** The steps of a run that send to it. */
  ghost function Admissions(s: System, actions: seq<Action>, r: Request): nat
    decreases |actions|
  {
    if actions == [] then 0
    else (if Step(s, actions[0]).slots > s.slots && actions[0] == Arrive(r) then 1 else 0) + Admissions(Step(s, actions[0]), actions[1..], r)
  }

  ghost function Held(s: System, r: Request): nat {
    if r in InFlight(s) then 1 else 0
  }

  lemma {:induction false} ReleasesMatchFrom(s: System, actions: seq<Action>, r: Request)
    requires Inv(s)
    ensures Held(s, r) + Admissions(s, actions, r) == Releases(s, actions, r) + Held(Run(s, actions), r)
    ensures (if r in s.requests then 0 else 1) >= Admissions(s, actions, r)
    decreases |actions|
  {
    if actions == [] {
    } else {
      StepKeepsSlots(s, actions[0]);
      ReleasesMatchFrom(Step(s, actions[0]), actions[1..], r);
    }
  }

  /** A request is admitted at most once and returns its slot exactly once if it has left, however it left. */
  lemma ReleasesMatchAdmissions(limit: nat, actions: seq<Action>, r: Request)
    ensures var s := Run(Idle(limit), actions);
            var admitted, released := Admissions(Idle(limit), actions, r), Releases(Idle(limit), actions, r);
            admitted <= 1 && admitted == released + (if r in InFlight(s) then 1 else 0)
  {
    assert InFlight(Idle(limit)) == {};
    ReleasesMatchFrom(Idle(limit), actions, r);
  }

  // ---------------------------------------------------------------- the handler

  class Limiter {
    const limit: nat
    var slots: nat
    ghost var requests: map<Request, Stage>

    ghost function State(): System
      reads this
    {
      System(limit, slots, requests)
    }

    constructor (limit: nat)
      ensures State() == Idle(limit) && Inv(State())
    {
      this.limit := limit;
      slots := 0;
      requests := map[];
      new;
      assert InFlight(State()) == {};
    }

    /** Sends to the channel if that need not wait. */
    method Enter(r: Request) returns (admitted: bool)
      requires Inv(State()) && r !in requests
      modifies this
      ensures State() == Step(old(State()), Arrive(r)) && Inv(State())
      ensures admitted <==> |old(InFlight(State()))| < limit
      ensures admitted <==> r in InFlight(State())
      ensures slots == old(slots) + (if admitted then 1 else 0) && requests == old(requests)[r := if admitted then Serving else Refused]
    {
      StepKeepsSlots(State(), Arrive(r));
      admitted := slots < limit;
      if admitted {
        slots := slots + 1;
      }
      requests := requests[r := if admitted then Serving else Refused];
    }

    /** The deferred receive, after the handler has returned or panicked; it finds a value there. */
    method Leave(r: Request, panicked: bool)
      requires Inv(State()) && r in requests && requests[r].Serving?
      modifies this
      ensures State() == Step(Step(old(State()), End(r, panicked)), Release(r)) && Inv(State())
      ensures InFlight(State()) == old(InFlight(State())) - {r}
      ensures slots == old(slots) - 1 && requests == old(requests)[r := Done(panicked)]
    {
      ghost var leaving := Step(State(), End(r, panicked));
      StepKeepsSlots(State(), End(r, panicked));
      StepKeepsSlots(leaving, Release(r));
      assert r in InFlight(leaving);
      assert slots > 0;
      slots := slots - 1;
      requests := requests[r := Done(panicked)];
      assert requests == Step(leaving, Release(r)).requests;
    }
  }
}
