// The request body limit around an application, one step of either side at a time.

module BodyLimit {
  import opened Chars

  // What the server hands up: a piece of the body, or word that the client left.
  datatype Incoming = Piece(size: nat) | Disconnect

  // What goes down to the client: the start of a response, or more of one.
  datatype Outgoing = Start(status: int) | More

  // Where the application's one receive is: not called, waiting on the server,
  // or waiting while the refusal goes out, with how much of it has gone.
  datatype Receive = Idle | Waiting | Refusing(sent: nat)

  const REFUSAL: seq<Outgoing> := [Start(413), More]

  datatype State = State(
    limit: nat,
    received: nat,
    started: bool,
    receive: Receive,
    sending: Option<Outgoing>,
    taken: nat,
    handed: seq<Incoming>,
    client: seq<Outgoing>)

  // A step of the server or the application. The application may send while its
  // receive waits, and a piece of the body may arrive while its send is under
  // way; it has at most one receive and one send at a time.
  datatype Step =
    | Receives
    | Arrives(message: Incoming)
    | RefusalGoesOn
    | Sends(said: Outgoing)
    | SendGoesOut

  predicate Enabled(s: State, step: Step) {
    match step
    case Receives => s.receive == Idle
    case Arrives(_) => s.receive == Waiting
    case RefusalGoesOn => s.receive.Refusing?
    case Sends(_) => s.sending.None?
    case SendGoesOut => s.sending.Some?
  }

  predicate Over(s: State) {
    s.received > s.limit
  }

  function After(s: State, step: Step): State
    requires Enabled(s, step)
  {
    match step
    case Receives =>
      if Over(s) then s.(handed := s.handed + [Disconnect]) else s.(receive := Waiting)
    case Arrives(message) =>
      var read := s.(taken := s.taken + 1);
      if message.Disconnect? then read.(receive := Idle, handed := s.handed + [Disconnect])
      else
        var counted := read.(received := s.received + message.size);
        if !Over(counted) then counted.(receive := Idle, handed := s.handed + [message])
        else if !s.started then counted.(receive := Refusing(0))
        else counted.(receive := Idle, handed := s.handed + [Disconnect])
    case RefusalGoesOn =>
      if s.receive.sent < |REFUSAL| then
        s.(receive := Refusing(s.receive.sent + 1), client := s.client + [REFUSAL[s.receive.sent]])
      else s.(receive := Idle, handed := s.handed + [Disconnect])
    case Sends(said) =>
      if Over(s) then s
      else s.(started := s.started || said.Start?, sending := Some(said))
    case SendGoesOut => s.(sending := None, client := s.client + [s.sending.value])
  }

  // The middleware's counters and its two wrapped channels, stepped in place.
  class Limiter {
    const limit: nat
    var received: nat
    var started: bool
    var receive: Receive
    var sending: Option<Outgoing>
    var taken: nat
    var handed: seq<Incoming>
    var client: seq<Outgoing>

    ghost function Now(): State
      reads this
    {
      State(limit, received, started, receive, sending, taken, handed, client)
    }

    constructor (maxBytes: nat)
      ensures Now() == Opening(maxBytes)
    {
      limit, received, started, receive, sending := maxBytes, 0, false, Idle, None;
      taken, handed, client := 0, [], [];
    }

    // The application asks for the next piece of the body.
    method BoundedReceive()
      requires Enabled(Now(), Receives)
      modifies this
      ensures Now() == After(old(Now()), Receives)
    {
      if received > limit {
        handed := handed + [Disconnect];
      } else {
        receive := Waiting;
      }
    }

    // The server answers that wait.
    method Arrive(message: Incoming)
      requires Enabled(Now(), Arrives(message))
      modifies this
      ensures Now() == After(old(Now()), Arrives(message))
    {
      taken := taken + 1;
      receive := Idle;
      if message.Piece? {
        received := received + message.size;
        if received > limit {
          if !started {
            receive := Refusing(0);
            return;
          }
          handed := handed + [Disconnect];
          return;
        }
      }
      handed := handed + [message];
    }

    // One more message of the refusal goes out, or it is done.
    method RefuseOn()
      requires Enabled(Now(), RefusalGoesOn)
      modifies this
      ensures Now() == After(old(Now()), RefusalGoesOn)
    {
      var sent := receive.sent;
      if sent < |REFUSAL| {
        receive, client := Refusing(sent + 1), client + [REFUSAL[sent]];
      } else {
        receive, handed := Idle, handed + [Disconnect];
      }
    }

    // The application sends, up to where the server's own send is awaited.
    method GuardedSend(message: Outgoing)
      requires Enabled(Now(), Sends(message))
      modifies this
      ensures Now() == After(old(Now()), Sends(message))
    {
      if received > limit {
        return;
      }
      started := started || message.Start?;
      sending := Some(message);
    }

    // The server's send is done.
    method SendOut()
      requires Enabled(Now(), SendGoesOut)
      modifies this
      ensures Now() == After(old(Now()), SendGoesOut)
    {
      sending, client := None, client + [sending.value];
    }
  }

  function Opening(limit: nat): State {
    State(limit, 0, false, Idle, None, 0, [], [])
  }

  // A request whose declared length is over the limit is refused before a byte
  // is read, and the application never runs: all the client gets is the refusal.
  method Admit(declared: Option<int>, maxBytes: nat) returns (limiter: Limiter?, refusal: seq<Outgoing>)
    ensures declared.Some? && declared.value > maxBytes <==> limiter == null
    ensures refusal == if limiter == null then REFUSAL else []
    ensures limiter != null ==> fresh(limiter) && limiter.Now() == Opening(maxBytes)
  {
    if declared.Some? && declared.value > maxBytes {
      return null, REFUSAL;
    }
    limiter := new Limiter(maxBytes);
    refusal := [];
  }

  // ----- every interleaving -----

  ghost predicate Possible(s: State, steps: seq<Step>)
    decreases |steps|
  {
    steps == [] || (Enabled(s, steps[0]) && Possible(After(s, steps[0]), steps[1..]))
  }

  ghost function Ended(s: State, steps: seq<Step>): State
    requires Possible(s, steps)
    decreases |steps|
  {
    if steps == [] then s else Ended(After(s, steps[0]), steps[1..])
  }

  function Bytes(handed: seq<Incoming>): nat {
    if handed == [] then 0
    else
      Bytes(handed[..|handed| - 1])
      + (match handed[|handed| - 1] case Piece(size) => size case Disconnect => 0)
  }

  // What holds between any two steps.
  predicate Inv(s: State) {
    && Bytes(s.handed) <= s.limit
    && (!Over(s) ==> Bytes(s.handed) == s.received && !s.receive.Refusing?)
    && (Over(s) ==> s.receive != Waiting)
    && (s.receive.Refusing? ==> !s.started && s.receive.sent <= |REFUSAL|)
  }

  lemma {:induction false} BytesOfOneMore(handed: seq<Incoming>, message: Incoming)
    ensures Bytes(handed + [message]) == Bytes(handed) + (match message case Piece(size) => size case Disconnect => 0)
  {
    assert (handed + [message])[..|handed|] == handed;
  }

  lemma {:induction false} StepKeepsInv(s: State, step: Step)
    requires Inv(s) && Enabled(s, step)
    ensures Inv(After(s, step))
  {
    hide Bytes;
    BytesOfOneMore(s.handed, Disconnect);
    if step.Arrives? {
      BytesOfOneMore(s.handed, step.message);
    }
  }

  lemma {:induction false} OpeningInv(limit: nat)
    ensures Inv(Opening(limit))
  {
  }

  lemma {:induction false} StepsKeepInv(s: State, steps: seq<Step>)
    requires Inv(s) && Possible(s, steps)
    ensures Inv(Ended(s, steps)) && Ended(s, steps).limit == s.limit
    decreases |steps|
  {
    hide Inv;
    if steps != [] {
      StepKeepsInv(s, steps[0]);
      StepsKeepInv(After(s, steps[0]), steps[1..]);
    }
  }

  // The application is never handed more of the body than the limit.
  lemma {:induction false} HandedWithinLimit(limit: nat, steps: seq<Step>)
    requires Possible(Opening(limit), steps)
    ensures Bytes(Ended(Opening(limit), steps).handed) <= limit
  {
    OpeningInv(limit);
    StepsKeepInv(Opening(limit), steps);
  }

  // What is still to go out of a refusal under way, and of a send under way.
  function ToCome(s: State): seq<Outgoing> {
    if s.receive.Refusing? && s.receive.sent <= |REFUSAL| then REFUSAL[s.receive.sent..] else []
  }

  function UnderWay(s: State): seq<Outgoing> {
    if s.sending.Some? then [s.sending.value] else []
  }

  // ----- two senders, one client -----

  // `all` is `a` and `b` run together, each in its own order.
  ghost predicate Merge<T>(a: seq<T>, b: seq<T>, all: seq<T>)
    decreases |all|
  {
    if all == [] then a == [] && b == []
    else
      var last, front := all[|all| - 1], all[..|all| - 1];
      || (a != [] && a[|a| - 1] == last && Merge(a[..|a| - 1], b, front))
      || (b != [] && b[|b| - 1] == last && Merge(a, b[..|b| - 1], front))
  }

  lemma {:induction false} MergeOneMore<T>(a: seq<T>, b: seq<T>, all: seq<T>, x: T)
    requires Merge(a, b, all)
    ensures Merge(a + [x], b, all + [x]) && Merge(a, b + [x], all + [x])
  {
    assert (all + [x])[..|all|] == all && (a + [x])[..|a|] == a && (b + [x])[..|b|] == b;
  }

  lemma {:induction false} MergeAlone<T>(a: seq<T>, all: seq<T>)
    ensures Merge(a, [], all) ==> all == a
    ensures Merge([], a, all) ==> all == a
    decreases |all|
  {
    if all != [] && a != [] {
      MergeAlone(a[..|a| - 1], all[..|all| - 1]);
      assert a == a[..|a| - 1] + [a[|a| - 1]] && all == all[..|all| - 1] + [all[|all| - 1]];
    }
  }

  // ----- after the limit is passed -----

  // What goes out from here to there: some of what was under way, some of what
  // was still to come of the refusal, and nothing else.
  ghost predicate Finishes(
    way: seq<Outgoing>, come: seq<Outgoing>, client: seq<Outgoing>,
    way2: seq<Outgoing>, come2: seq<Outgoing>, client2: seq<Outgoing>)
  {
    exists a, b, more ::
      way == a + way2 && come == b + come2 && client2 == client + more && Merge(a, b, more)
  }

  ghost predicate OnlyFinishes(s: State, ended: State) {
    Finishes(UnderWay(s), ToCome(s), s.client, UnderWay(ended), ToCome(ended), ended.client)
  }

  // Once the total has passed the limit nothing more is read from the server,
  // the application is handed nothing but disconnects, and the client gets
  // nothing but what is left of the refusal and the send already under way,
  // whatever the application sends.
  lemma {:induction false} NothingGetsThroughAfter(s: State, steps: seq<Step>)
    requires Inv(s) && Over(s) && Possible(s, steps)
    ensures
      var ended := Ended(s, steps);
      && ended.taken == s.taken && Over(ended) && ended.started == s.started
      && Bytes(ended.handed) == Bytes(s.handed)
      && OnlyFinishes(s, ended)
    decreases |steps|
  {
    hide Bytes, OnlyFinishes;
    if steps == [] {
      NothingMoved(s);
    } else {
      var next := After(s, steps[0]);
      StepKeepsInv(s, steps[0]);
      BytesOfOneMore(s.handed, Disconnect);
      NothingGetsThroughAfter(next, steps[1..]);
      StepFinishes(s, steps[0], Ended(next, steps[1..]));
    }
  }

  lemma {:induction false} NothingMoved(s: State)
    ensures OnlyFinishes(s, s)
  {
    var none: seq<Outgoing> := [];
    assert UnderWay(s) == none + UnderWay(s) && ToCome(s) == none + ToCome(s) && s.client == s.client + none;
    assert Merge(none, none, none);
  }

  // One step in front of what only finishes.
  lemma {:induction false} StepFinishes(s: State, step: Step, ended: State)
    requires Inv(s) && Over(s) && Enabled(s, step) && OnlyFinishes(After(s, step), ended)
    ensures OnlyFinishes(s, ended)
  {
    hide Finishes, Inv, Over, After, ToCome, UnderWay;
    StepMoves(s, step);
    var way, come, client := UnderWay(ended), ToCome(ended), ended.client;
    var next := After(s, step);
    if step.SendGoesOut? {
      SendFinishes(s.sending.value, ToCome(s), s.client, way, come, client);
    } else if step.RefusalGoesOn? && s.receive.sent < |REFUSAL| {
      RefusalFinishes(UnderWay(s), REFUSAL[s.receive.sent], ToCome(next), s.client, way, come, client);
    }
  }

  // What one step moves: a send, or a message of the refusal, out to the client.
  lemma {:induction false} StepMoves(s: State, step: Step)
    requires Inv(s) && Enabled(s, step)
    ensures
      var next := After(s, step);
      match step
      case SendGoesOut =>
        && UnderWay(s) == [s.sending.value] && UnderWay(next) == []
        && ToCome(next) == ToCome(s) && next.client == s.client + [s.sending.value]
        && Refusal(next) == Refusal(s) && next.started == s.started
      case RefusalGoesOn =>
        && UnderWay(next) == UnderWay(s) && Refusal(next) == Refusal(s) && next.started == s.started
        && if s.receive.sent < |REFUSAL| then
             ToCome(s) == [REFUSAL[s.receive.sent]] + ToCome(next)
             && next.client == s.client + [REFUSAL[s.receive.sent]]
           else ToCome(next) == ToCome(s) && next.client == s.client
      case Sends(said) =>
        && ToCome(next) == ToCome(s) && next.client == s.client
        && if Over(s) then
             UnderWay(next) == UnderWay(s) && Refusal(next) == Refusal(s) && next.started == s.started
           else
             UnderWay(s) == [] && UnderWay(next) == [said] && Refusal(next) == Refusal(s) == []
             && (next.started <==> s.started || said.Start?)
      case _ =>
        && UnderWay(next) == UnderWay(s) && next.client == s.client && next.started == s.started
        && ((Refusal(next) == Refusal(s) && ToCome(next) == ToCome(s))
            || (!Over(s) && Refusal(s) == ToCome(s) == [] && Refusal(next) == ToCome(next)))
  {
    hide Bytes;
    assert REFUSAL[0..] == REFUSAL && REFUSAL[|REFUSAL|..] == [];
  }

  lemma {:induction false} SendFinishes(
    x: Outgoing, come: seq<Outgoing>, client: seq<Outgoing>,
    way2: seq<Outgoing>, come2: seq<Outgoing>, client2: seq<Outgoing>)
    requires Finishes([], come, client + [x], way2, come2, client2)
    ensures Finishes([x], come, client, way2, come2, client2)
  {
    hide Merge;
    var a, b, more :|
      [] == a + way2 && come == b + come2 && client2 == client + [x] + more && Merge(a, b, more);
    MergeFirst(a, b, more, x);
    assert [x] == ([x] + a) + way2 && client2 == client + ([x] + more);
  }

  lemma {:induction false} RefusalFinishes(
    way: seq<Outgoing>, x: Outgoing, come: seq<Outgoing>, client: seq<Outgoing>,
    way2: seq<Outgoing>, come2: seq<Outgoing>, client2: seq<Outgoing>)
    requires Finishes(way, come, client + [x], way2, come2, client2)
    ensures Finishes(way, [x] + come, client, way2, come2, client2)
  {
    hide Merge;
    var a, b, more :|
      way == a + way2 && come == b + come2 && client2 == client + [x] + more && Merge(a, b, more);
    MergeFirst(a, b, more, x);
    assert [x] + come == ([x] + b) + come2 && client2 == client + ([x] + more);
  }

  lemma {:induction false} MergeFirst<T>(a: seq<T>, b: seq<T>, all: seq<T>, x: T)
    requires Merge(a, b, all)
    ensures Merge([x] + a, b, [x] + all) && Merge(a, [x] + b, [x] + all)
    decreases |all|
  {
    if all == [] {
      var none: seq<T> := [];
      assert [x] + none == [x] && [x][..0] == none && Merge(none, none, none);
      assert Merge([x], none, [x]) && Merge(none, [x], [x]);
    } else {
      var last, front := all[|all| - 1], all[..|all| - 1];
      assert ([x] + all)[..|all|] == [x] + front;
      if a != [] && a[|a| - 1] == last && Merge(a[..|a| - 1], b, front) {
        MergeFirst(a[..|a| - 1], b, front, x);
        assert ([x] + a)[..|a|] == [x] + a[..|a| - 1];
      } else {
        MergeFirst(a, b[..|b| - 1], front, x);
        assert ([x] + b)[..|b|] == [x] + b[..|b| - 1];
      }
    }
  }

  // ----- what the client sees -----

  // What the application sends before the total passes the limit.
  ghost function Forwarded(s: State, steps: seq<Step>): seq<Outgoing>
    requires Possible(s, steps)
    decreases |steps|
  {
    if steps == [] then []
    else
      (if steps[0].Sends? && !Over(s) then [steps[0].said] else []) + Forwarded(After(s, steps[0]), steps[1..])
  }

  predicate HasStart(messages: seq<Outgoing>) {
    exists message <- messages :: message.Start?
  }

  // The refusal, once the total passed the limit before the application had
  // started a response.
  function Refusal(s: State): seq<Outgoing> {
    if Over(s) && !s.started then REFUSAL else []
  }

  // The client has what was sent, but for what is under way, and the refusal, but
  // for what is still to come, run together.
  ghost predicate Seen(
    sent: seq<Outgoing>, refusal: seq<Outgoing>, way: seq<Outgoing>, come: seq<Outgoing>,
    client: seq<Outgoing>)
  {
    exists done, gone :: sent == done + way && refusal == gone + come && Merge(done, gone, client)
  }

  ghost predicate Sees(s: State, sent: seq<Outgoing>) {
    && (s.started <==> HasStart(sent))
    && Seen(sent, Refusal(s), UnderWay(s), ToCome(s), s.client)
  }

  lemma {:induction false} SeenSend(
    sent: seq<Outgoing>, refusal: seq<Outgoing>, x: Outgoing, come: seq<Outgoing>, client: seq<Outgoing>)
    requires Seen(sent, refusal, [x], come, client)
    ensures Seen(sent, refusal, [], come, client + [x])
  {
    hide Merge;
    var done, gone :| sent == done + [x] && refusal == gone + come && Merge(done, gone, client);
    MergeOneMore(done, gone, client, x);
    assert sent == (done + [x]) + [];
  }

  lemma {:induction false} SeenRefusal(
    sent: seq<Outgoing>, refusal: seq<Outgoing>, way: seq<Outgoing>, x: Outgoing, come: seq<Outgoing>,
    client: seq<Outgoing>)
    requires Seen(sent, refusal, way, [x] + come, client)
    ensures Seen(sent, refusal, way, come, client + [x])
  {
    hide Merge;
    var done, gone :| sent == done + way && refusal == gone + ([x] + come) && Merge(done, gone, client);
    MergeOneMore(done, gone, client, x);
    assert refusal == (gone + [x]) + come;
  }

  lemma {:induction false} SeenMore(
    sent: seq<Outgoing>, refusal: seq<Outgoing>, x: Outgoing, come: seq<Outgoing>, client: seq<Outgoing>)
    requires Seen(sent, refusal, [], come, client)
    ensures Seen(sent + [x], refusal, [x], come, client)
  {
    hide Merge;
    var done, gone :| sent == done + [] && refusal == gone + come && Merge(done, gone, client);
    assert sent + [x] == done + [x];
  }

  lemma {:induction false} SeenRefused(
    sent: seq<Outgoing>, refusal: seq<Outgoing>, way: seq<Outgoing>, client: seq<Outgoing>)
    requires Seen(sent, [], way, [], client)
    ensures Seen(sent, refusal, way, refusal, client)
  {
    hide Merge;
    var done, gone :| sent == done + way && [] == gone + [] && Merge(done, gone, client);
    assert refusal == gone + refusal;
  }

  lemma {:induction false} StartAmong(sent: seq<Outgoing>, x: Outgoing)
    ensures HasStart(sent + [x]) <==> HasStart(sent) || x.Start?
  {
    assert forall message :: message in sent + [x] <==> message in sent || message == x;
  }

  lemma {:induction false} StepSees(s: State, step: Step, sent: seq<Outgoing>)
    requires Inv(s) && Enabled(s, step) && Sees(s, sent)
    ensures Sees(After(s, step), sent + (if step.Sends? && !Over(s) then [step.said] else []))
  {
    hide Seen, Inv, Over, After, ToCome, UnderWay, HasStart, Refusal;
    StepMoves(s, step);
    var next := After(s, step);
    if step.Sends? && !Over(s) {
      SeenMore(sent, Refusal(s), step.said, ToCome(s), s.client);
      StartAmong(sent, step.said);
    } else {
      assert sent + [] == sent;
      if step.SendGoesOut? {
        SeenSend(sent, Refusal(s), s.sending.value, ToCome(s), s.client);
      } else if step.RefusalGoesOn? && s.receive.sent < |REFUSAL| {
        SeenRefusal(sent, Refusal(s), UnderWay(s), REFUSAL[s.receive.sent], ToCome(next), s.client);
      } else if Refusal(next) != Refusal(s) || ToCome(next) != ToCome(s) {
        SeenRefused(sent, Refusal(next), UnderWay(s), s.client);
      }
    }
  }

  lemma {:induction false} RunSees(s: State, steps: seq<Step>, sent: seq<Outgoing>)
    requires Inv(s) && Possible(s, steps) && Sees(s, sent)
    ensures Sees(Ended(s, steps), sent + Forwarded(s, steps))
    decreases |steps|
  {
    hide Inv, Sees, After;
    if steps == [] {
      assert sent + [] == sent;
    } else {
      var said := if steps[0].Sends? && !Over(s) then [steps[0].said] else [];
      StepKeepsInv(s, steps[0]);
      StepSees(s, steps[0], sent);
      RunSees(After(s, steps[0]), steps[1..], sent + said);
      assert (sent + said) + Forwarded(After(s, steps[0]), steps[1..]) == sent + Forwarded(s, steps);
    }
  }

  lemma {:induction false} OpeningSees(limit: nat)
    ensures Sees(Opening(limit), [])
  {
    var none: seq<Outgoing> := [];
    assert none == none + none && Merge(none, none, none);
    assert UnderWay(Opening(limit)) == none && ToCome(Opening(limit)) == none;
  }

  // Whatever the interleaving, the client sees what the application sent before
  // the total passed the limit, the last of it perhaps still under way, and the
  // 413 exactly if no response had been started by then: so one response start
  // at most is added, and only where there was none. An application whose first
  // message is its start is seen in one order.
  lemma {:induction false} ClientSees(limit: nat, steps: seq<Step>)
    requires Possible(Opening(limit), steps)
    ensures
      var ended, sent := Ended(Opening(limit), steps), Forwarded(Opening(limit), steps);
      && Sees(ended, sent)
      && (Refusal(ended) == REFUSAL <==> Over(ended) && !HasStart(sent))
      && (sent == [] || sent[0].Start? ==>
            ended.client + UnderWay(ended) + ToCome(ended) == sent + Refusal(ended))
  {
    OpeningInv(limit);
    OpeningSees(limit);
    RunSees(Opening(limit), steps, []);
    var ended, sent := Ended(Opening(limit), steps), Forwarded(Opening(limit), steps);
    assert [] + sent == sent;
    hide Ended, Forwarded;
    if sent == [] || sent[0].Start? {
      SeenInOrder(ended, sent);
    }
  }

  lemma {:induction false} SeenInOrder(s: State, sent: seq<Outgoing>)
    requires Sees(s, sent) && (sent == [] || sent[0].Start?)
    ensures s.client + UnderWay(s) + ToCome(s) == sent + Refusal(s)
  {
    hide Merge, Over;
    assert Seen(sent, Refusal(s), UnderWay(s), ToCome(s), s.client);
    var done, gone :|
      sent == done + UnderWay(s) && Refusal(s) == gone + ToCome(s) && Merge(done, gone, s.client);
    MergeAlone(done, s.client);
    MergeAlone(gone, s.client);
    if sent == [] {
      assert done == [] && UnderWay(s) == [];
      assert s.client + [] + ToCome(s) == [] + Refusal(s);
    } else {
      assert sent[0] in sent;
      assert gone == [] && ToCome(s) == [] && Refusal(s) == [];
    }
  }

  function Starts(messages: seq<Outgoing>): nat {
    if messages == [] then 0
    else Starts(messages[..|messages| - 1]) + if messages[|messages| - 1].Start? then 1 else 0
  }

  // The starts an application sends in some steps.
  function SentStarts(steps: seq<Step>): nat {
    if steps == [] then 0
    else (if steps[0].Sends? && steps[0].said.Start? then 1 else 0) + SentStarts(steps[1..])
  }

  lemma {:induction false} StartsOfBoth(first: seq<Outgoing>, second: seq<Outgoing>)
    ensures Starts(first + second) == Starts(first) + Starts(second)
    decreases |second|
  {
    if second == [] {
      assert first + second == first;
    } else {
      assert (first + second)[..|first + second| - 1] == first + second[..|second| - 1];
      StartsOfBoth(first, second[..|second| - 1]);
    }
  }

  lemma {:induction false} StartsOfMerge(a: seq<Outgoing>, b: seq<Outgoing>, all: seq<Outgoing>)
    requires Merge(a, b, all)
    ensures Starts(all) == Starts(a) + Starts(b)
    decreases |all|
  {
    if all != [] {
      var front := all[..|all| - 1];
      if a != [] && a[|a| - 1] == all[|all| - 1] && Merge(a[..|a| - 1], b, front) {
        StartsOfMerge(a[..|a| - 1], b, front);
      } else {
        StartsOfMerge(a, b[..|b| - 1], front);
      }
    }
  }

  lemma {:induction false} ForwardedStarts(s: State, steps: seq<Step>)
    requires Possible(s, steps)
    ensures Starts(Forwarded(s, steps)) <= SentStarts(steps)
    decreases |steps|
  {
    hide After;
    if steps != [] {
      ForwardedStarts(After(s, steps[0]), steps[1..]);
      var rest := Forwarded(After(s, steps[0]), steps[1..]);
      var said := if steps[0].Sends? && !Over(s) then [steps[0].said] else [];
      StartsOfBoth(said, rest);
      assert said != [] ==> said[..0] == [];
    }
  }

  lemma {:induction false} NoStarts(messages: seq<Outgoing>)
    requires !HasStart(messages)
    ensures Starts(messages) == 0
  {
    if messages != [] {
      assert messages[|messages| - 1] in messages;
      assert forall message <- messages[..|messages| - 1] :: message in messages;
      NoStarts(messages[..|messages| - 1]);
    }
  }

  // An application that starts at most one response leaves the client with at
  // most one response start, refusal included.
  lemma {:induction false} OneResponseStart(limit: nat, steps: seq<Step>)
    requires Possible(Opening(limit), steps) && SentStarts(steps) <= 1
    ensures Starts(Ended(Opening(limit), steps).client) <= 1
  {
    var ended, sent := Ended(Opening(limit), steps), Forwarded(Opening(limit), steps);
    hide Ended, Forwarded;
    ClientSees(limit, steps);
    ForwardedStarts(Opening(limit), steps);
    OneStartSeen(ended, sent);
  }

  lemma {:induction false} OneStartSeen(s: State, sent: seq<Outgoing>)
    requires Sees(s, sent) && Starts(sent) <= 1
    ensures Starts(s.client) <= 1
  {
    hide Starts, Merge, UnderWay, ToCome;
    var done, gone :|
      sent == done + UnderWay(s) && Refusal(s) == gone + ToCome(s) && Merge(done, gone, s.client);
    StartsOfMerge(done, gone, s.client);
    StartsOfBoth(done, UnderWay(s));
    StartsOfBoth(gone, ToCome(s));
    RefusalStarts();
    if Refusal(s) == REFUSAL {
      NoStarts(sent);
    } else {
      NoStarts([]);
    }
  }

  lemma {:induction false} RefusalStarts()
    ensures Starts(REFUSAL) == 1
  {
    assert REFUSAL[..1] == [Start(413)] && [Start(413)][..0] == [];
  }
}
