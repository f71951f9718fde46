// The body limit said of the pieces that arrived: nothing changes while their
// total is within it, and the first piece past it ends the exchange.

module BodyTotals {
  import opened BodyLimit

  // What the server handed up, in order.
  function Arrived(steps: seq<Step>): seq<Incoming> {
    if steps == [] then []
    else (if steps[0].Arrives? then [steps[0].message] else []) + Arrived(steps[1..])
  }

  // How many bytes of the body arrived.
  function Total(steps: seq<Step>): nat {
    if steps == [] then 0
    else (if steps[0].Arrives? && steps[0].message.Piece? then steps[0].message.size else 0) + Total(steps[1..])
  }

  // What the application sent, in order.
  function Said(steps: seq<Step>): seq<Outgoing> {
    if steps == [] then []
    else (if steps[0].Sends? then [steps[0].said] else []) + Said(steps[1..])
  }

  predicate OnlyDisconnects(handed: seq<Incoming>) {
    forall message <- handed :: message == Disconnect
  }

  // ----- within the limit -----

  // From one state within the limit to another, all that came was handed on, and
  // all that was said went out.
  predicate Passes(s: State, next: State, total: nat, arrived: seq<Incoming>, said: seq<Outgoing>) {
    && !Over(next) && next.received == s.received + total && next.limit == s.limit
    && next.handed == s.handed + arrived
    && next.client + UnderWay(next) == s.client + UnderWay(s) + said
  }

  lemma {:induction false} PassesTwice(
    s: State, next: State, ended: State, total: nat, arrived: seq<Incoming>, said: seq<Outgoing>,
    total2: nat, arrived2: seq<Incoming>, said2: seq<Outgoing>)
    requires Passes(s, next, total, arrived, said) && Passes(next, ended, total2, arrived2, said2)
    ensures Passes(s, ended, total + total2, arrived + arrived2, said + said2)
  {
    hide UnderWay, Over;
    assert s.client + UnderWay(s) + (said + said2) == s.client + UnderWay(s) + said + said2;
    assert s.handed + (arrived + arrived2) == s.handed + arrived + arrived2;
  }

  lemma {:induction false} PassesStill(s: State)
    requires !Over(s)
    ensures Passes(s, s, 0, [], [])
  {
    assert s.handed + [] == s.handed && s.client + UnderWay(s) + [] == s.client + UnderWay(s);
  }

  lemma {:induction false} StepWithin(s: State, step: Step)
    requires Inv(s) && !Over(s) && Enabled(s, step) && s.received + Total([step]) <= s.limit
    ensures Inv(After(s, step))
    ensures Passes(s, After(s, step), Total([step]), Arrived([step]), Said([step]))
  {
    hide Bytes;
    StepKeepsInv(s, step);
    assert Total([step][1..]) == 0 && Arrived([step][1..]) == [] && Said([step][1..]) == [];
  }

  lemma {:induction false} OneStep(steps: seq<Step>)
    requires steps != []
    ensures Total(steps) == Total([steps[0]]) + Total(steps[1..])
    ensures Arrived(steps) == Arrived([steps[0]]) + Arrived(steps[1..])
    ensures Said(steps) == Said([steps[0]]) + Said(steps[1..])
  {
    var one := [steps[0]];
    assert Total(one[1..]) == 0 && Arrived(one[1..]) == [] && Said(one[1..]) == [];
  }

  lemma {:induction false} StepsWithin(s: State, steps: seq<Step>)
    requires Inv(s) && !Over(s) && Possible(s, steps) && s.received + Total(steps) <= s.limit
    ensures Inv(Ended(s, steps)) && Forwarded(s, steps) == Said(steps)
    ensures Passes(s, Ended(s, steps), Total(steps), Arrived(steps), Said(steps))
    decreases |steps|
  {
    if steps == [] {
      PassesStill(s);
    } else {
      var one, rest, next := [steps[0]], steps[1..], After(s, steps[0]);
      OneStep(steps);
      StepWithin(s, steps[0]);
      NextIsWithin(s, next, one, rest);
      hide Inv, Over, UnderWay, After, Arrived, Total, Said, Passes;
      ForwardsWithin(s, steps);
      StepsWithin(next, rest);
      PassesTwice(
        s, next, Ended(next, rest), Total(one), Arrived(one), Said(one), Total(rest), Arrived(rest), Said(rest));
    }
  }

  lemma {:induction false} NextIsWithin(s: State, next: State, one: seq<Step>, rest: seq<Step>)
    requires Passes(s, next, Total(one), Arrived(one), Said(one)) && s.received + (Total(one) + Total(rest)) <= s.limit
    ensures !Over(next) && next.received + Total(rest) <= next.limit
  {
  }

  lemma {:induction false} ForwardsWithin(s: State, steps: seq<Step>)
    requires steps != [] && Possible(s, steps) && !Over(s)
    ensures Forwarded(s, steps) == Said([steps[0]]) + Forwarded(After(s, steps[0]), steps[1..])
  {
    assert Said([steps[0]][1..]) == [];
  }

  // While the pieces that arrived are no longer than the limit together, the
  // limit is not there: the application is handed all of them in order, and all
  // it sends goes out in order, with no refusal.
  lemma {:induction false} WithinTheLimit(limit: nat, steps: seq<Step>)
    requires Possible(Opening(limit), steps) && Total(steps) <= limit
    ensures
      var ended := Ended(Opening(limit), steps);
      && ended.handed == Arrived(steps) && !ended.receive.Refusing?
      && ended.client + (if ended.sending.Some? then [ended.sending.value] else []) == Said(steps)
  {
    hide Ended, Possible, Total, Arrived, Said;
    OpeningInv(limit);
    StepsWithin(Opening(limit), steps);
    assert [] + Arrived(steps) == Arrived(steps) && [] + Said(steps) == Said(steps);
  }

  // ----- past the limit -----

  lemma {:induction false} EndedBoth(s: State, first: seq<Step>, second: seq<Step>)
    requires Possible(s, first + second)
    ensures Possible(s, first) && Possible(Ended(s, first), second)
    ensures Ended(s, first + second) == Ended(Ended(s, first), second)
    ensures Forwarded(s, first + second) == Forwarded(s, first) + Forwarded(Ended(s, first), second)
    decreases |first|
  {
    hide After, Over;
    if first == [] {
      assert first + second == second;
    } else {
      assert (first + second)[1..] == first[1..] + second;
      EndedBoth(After(s, first[0]), first[1..], second);
    }
  }

  lemma {:induction false} StepOver(s: State, step: Step)
    requires Inv(s) && Over(s) && Enabled(s, step)
    ensures
      var next := After(s, step);
      && Inv(next) && Over(next) && next.started == s.started && next.taken == s.taken
      && |s.handed| <= |next.handed| && next.handed[..|s.handed|] == s.handed
      && OnlyDisconnects(next.handed[|s.handed|..])
  {
    hide Bytes;
    StepKeepsInv(s, step);
  }

  lemma {:induction false} StepsOver(s: State, steps: seq<Step>)
    requires Inv(s) && Over(s) && Possible(s, steps)
    ensures
      var ended := Ended(s, steps);
      && Over(ended) && ended.started == s.started && ended.taken == s.taken && Forwarded(s, steps) == []
      && |s.handed| <= |ended.handed| && ended.handed[..|s.handed|] == s.handed
      && OnlyDisconnects(ended.handed[|s.handed|..])
    decreases |steps|
  {
    hide Inv, Over, After;
    if steps != [] {
      var next := After(s, steps[0]);
      StepOver(s, steps[0]);
      StepsOver(next, steps[1..]);
      var ended := Ended(s, steps);
      HandedOn(s.handed, next.handed, ended.handed);
    }
  }

  lemma {:induction false} HandedOn(was: seq<Incoming>, between: seq<Incoming>, now: seq<Incoming>)
    requires |was| <= |between| <= |now| && between[..|was|] == was && now[..|between|] == between
    requires OnlyDisconnects(between[|was|..]) && OnlyDisconnects(now[|between|..])
    ensures now[..|was|] == was && OnlyDisconnects(now[|was|..])
  {
    assert now[|was|..] == between[|was|..] + now[|between|..];
  }

  // The step that passes the limit.
  lemma {:induction false} StepPast(s: State, size: nat)
    requires Inv(s) && !Over(s) && s.receive == Waiting && s.received + size > s.limit
    ensures
      var next := After(s, Arrives(Piece(size)));
      && Inv(next) && Over(next) && next.started == s.started && next.taken == s.taken + 1
      && |s.handed| <= |next.handed| && next.handed[..|s.handed|] == s.handed
      && OnlyDisconnects(next.handed[|s.handed|..])
  {
    hide Bytes;
    StepKeepsInv(s, Arrives(Piece(size)));
  }

  lemma {:induction false} PastIsOver(s: State, size: nat, after: seq<Step>)
    requires Inv(s) && !Over(s) && s.received + size > s.limit
    requires Possible(s, [Arrives(Piece(size))] + after)
    ensures
      var ended := Ended(s, [Arrives(Piece(size))] + after);
      && Over(ended) && ended.taken == s.taken + 1
      && Forwarded(s, [Arrives(Piece(size))] + after) == []
      && |s.handed| <= |ended.handed| && ended.handed[..|s.handed|] == s.handed
      && OnlyDisconnects(ended.handed[|s.handed|..])
  {
    var steps := [Arrives(Piece(size))] + after;
    assert steps[0] == Arrives(Piece(size)) && steps[1..] == after;
    StepPast(s, size);
    hide Inv, Over, After;
    var next := After(s, steps[0]);
    StepsOver(next, after);
    HandedOn(s.handed, next.handed, Ended(next, after).handed);
  }

  // The first piece that takes the total past the limit ends the exchange: no
  // later piece is read, the application was handed all pieces before it and
  // nothing but disconnects since, and once all sends are out the client has
  // what the application sent before it, and the 413 if that held no start.
  lemma {:induction false} PastTheLimit(limit: nat, before: seq<Step>, size: nat, after: seq<Step>)
    requires Possible(Opening(limit), before + ([Arrives(Piece(size))] + after))
    requires Total(before) <= limit < Total(before) + size
    ensures
      var ended := Ended(Opening(limit), before + ([Arrives(Piece(size))] + after));
      var all, sent := Arrived(before), Said(before);
      && ended.taken == |all| + 1
      && |all| <= |ended.handed| && ended.handed[..|all|] == all && OnlyDisconnects(ended.handed[|all|..])
      && (ended.sending.None? && !ended.receive.Refusing? && (sent == [] || sent[0].Start?) ==>
            ended.client == sent + (if HasStart(sent) then [] else [Start(413), More]))
  {
    hide Inv, After, Over, Bytes, Sees, Arrived, Total, Said, Forwarded, OnlyDisconnects, Opening, Ended, Possible;
    hide Passes;
    var s, rest := Opening(limit), [Arrives(Piece(size))] + after;
    EndedBoth(s, before, rest);
    var t := Ended(s, before);
    OpeningInv(limit);
    OpeningIsIn(limit);
    StepsWithin(s, before);
    FromTheOpening(limit, t, Total(before), Arrived(before), Said(before));
    PastIsOver(t, size, after);
    TakenIsArrived(s, before);
    ClientSees(limit, before + rest);
    assert Said(before) + [] == Said(before);
    AllOut(Ended(s, before + rest), Said(before));
  }

  lemma {:induction false} FromTheOpening(
    limit: nat, t: State, total: nat, arrived: seq<Incoming>, said: seq<Outgoing>)
    requires Passes(Opening(limit), t, total, arrived, said)
    ensures !Over(t) && t.limit == limit && t.received == total && t.handed == arrived
  {
    assert [] + arrived == arrived;
  }

  lemma {:induction false} AllOut(s: State, sent: seq<Outgoing>)
    requires Sees(s, sent) && Over(s)
    ensures
      s.sending.None? && !s.receive.Refusing? && (sent == [] || sent[0].Start?) ==>
      s.client == sent + (if HasStart(sent) then [] else [Start(413), More])
  {
    hide Seen;
    if s.sending.None? && !s.receive.Refusing? && (sent == [] || sent[0].Start?) {
      SeenInOrder(s, sent);
      assert s.client + [] + [] == s.client;
    }
  }

  lemma {:induction false} OpeningIsIn(limit: nat)
    ensures !Over(Opening(limit)) && Opening(limit).received == 0 && Opening(limit).limit == limit
    ensures Opening(limit).handed == [] && Opening(limit).taken == 0
  {
  }

  lemma {:induction false} TakenIsArrived(s: State, steps: seq<Step>)
    requires Possible(s, steps)
    ensures Ended(s, steps).taken == s.taken + |Arrived(steps)|
    decreases |steps|
  {
    if steps != [] {
      TakenIsArrived(After(s, steps[0]), steps[1..]);
    }
  }
}
