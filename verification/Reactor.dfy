/** The reactor: stubs, deferred freeing and re-entrant callbacks (EpollReactor.cpp). */
module Reactors {
  datatype Flag = READ | WRITE | ERROR

  datatype Listener = NoListener | Handler(id: nat)

  /** One registration of a descriptor; `freed` and `eventFreed` record `delete` of it and of its epoll event. */
  class EventStub {
    const fd: int
    var events: set<Flag>
    var epoll: set<Flag>
    var listener: Listener
    ghost var freed: bool
    ghost var eventFreed: bool

    constructor (fd: int, events: set<Flag>, listener: Listener)
      ensures this.fd == fd && this.events == events && this.epoll == Converted(events) && this.listener == listener
      ensures !freed && !eventFreed
    {
      this.fd, this.events, this.epoll, this.listener := fd, events, Converted(events), listener;
      freed, eventFreed := false, false;
    }

    method Delete()
      requires !freed
      modifies this`freed
      ensures freed
    {
      freed := true;
    }

    method DeleteEvent()
      requires !eventFreed
      modifies this`eventFreed
      ensures eventFreed
    {
      eventFreed := true;
    }
  }

  /** `convertEvent`: the kernel is told of readable and writable only. */
  function Converted(events: set<Flag>): (epoll: set<Flag>)
    ensures (READ in epoll <==> READ in events) && (WRITE in epoll <==> WRITE in events) && ERROR !in epoll
  {
    events * {READ, WRITE}
  }

  /** What `epoll_wait` reports: the pointer registered and what happened. */
  datatype Ready = Ready(stub: EventStub, readable: bool, writable: bool, exception: bool)

  datatype Kind = Readable | Writable | Exception | Check

  /**
   * A callback made: the stub it was made for, the stub its descriptor was registered with at that moment, the
   * listener called, and how many listeners had been given out until then.
   */
  datatype Delivery =
    Delivery(reported: EventStub, registered: EventStub, listener: Listener, kind: Kind, given: nat)

  /** What a callback may do to the reactor before it returns; `Close` is the kernel forgetting a closed descriptor. */
  datatype Command =
    | Add(fd: int, events: set<Flag>, listener: nat)
    | Del(fd: int, events: set<Flag>)
    | Close(fd: int)

  /** `addEvent` gave a stub a listener. */
  datatype Gift = Gift(stub: EventStub, listener: Listener)

  /** The listener a stub was given last. */
  ghost function Holder(gifts: seq<Gift>, stub: EventStub): Listener {
    if gifts == [] then NoListener
    else
      var last := gifts[|gifts| - 1];
      if last.stub == stub then last.listener else Holder(gifts[..|gifts| - 1], stub)
  }

  /** What was given from position `n` on was given to stubs that are not gone. */
  ghost predicate GivenSince(gifts: seq<Gift>, n: nat, gone: set<EventStub>) {
    forall k :: n <= k < |gifts| ==> gifts[k].stub !in gone
  }

  ghost predicate NoneFor(gifts: seq<Gift>, stub: EventStub) {
    forall g <- gifts :: g.stub != stub
  }

  lemma {:induction false} HolderStays(gifts: seq<Gift>, more: seq<Gift>, stub: EventStub)
    requires NoneFor(more, stub)
    ensures Holder(gifts + more, stub) == Holder(gifts, stub)
  {
    if more == [] {
      assert gifts + more == gifts;
    } else {
      var rest := more[..|more| - 1];
      assert (gifts + more)[..|gifts + more| - 1] == gifts + rest;
      HolderStays(gifts, rest, stub);
    }
  }

  /** With no gift for a stub from `n` on, its holder is the same from there on. */
  lemma HolderSince(gifts: seq<Gift>, n: nat, m: nat, stub: EventStub)
    requires n <= m <= |gifts| && NoneFor(gifts[n..], stub)
    ensures Holder(gifts[..m], stub) == Holder(gifts[..n], stub)
  {
    assert gifts[..m] == gifts[..n] + gifts[n..m];
    assert forall g <- gifts[n..m] :: g in gifts[n..];
    HolderStays(gifts[..n], gifts[n..m], stub);
  }

  lemma HolderNext(gifts: seq<Gift>, g: Gift)
    ensures forall stub: EventStub ::
      Holder(gifts + [g], stub) == if g.stub == stub then g.listener else Holder(gifts, stub)
  {
    assert (gifts + [g])[..|gifts|] == gifts;
  }

  const MAX_EVENTS := 20

  const CHECK_PERIOD := 10

  datatype Op = CtlAdd | CtlMod | CtlDel

  ghost predicate NoRepeats(q: seq<EventStub>) {
    forall i, j :: 0 <= i < j < |q| ==> q[i] != q[j]
  }

  /** The kinds an event reports, in the order they are dispatched. */
  function Reported(e: Ready): seq<Kind> {
    (if e.readable then [Readable] else []) + (if e.writable then [Writable] else [])
    + (if e.exception then [Exception] else [])
  }

  /** Callbacks made for one stub, by kind. */
  ghost function Kinds(log: seq<Delivery>): seq<Kind> {
    seq(|log|, i requires 0 <= i < |log| => log[i].kind)
  }

  /** Whether a callback answers an event reported. */
  ghost predicate Answers(d: Delivery, e: Ready) {
    d.reported == e.stub && d.kind in Reported(e)
  }

  /**
   * Callbacks made for one event: reading before writing and both before the exception, each at most once, and none
   * for what did not happen.
   */
  ghost predicate InTurn(calls: seq<Delivery>, e: Ready) {
    && (forall d <- calls ::
          && d.reported == e.stub
          && d.kind != Check
          && (d.kind == Readable ==> e.readable) && (d.kind == Writable ==> e.writable)
          && (d.kind == Exception ==> e.exception))
    && (forall i, j :: 0 <= i < j < |calls| ==> calls[i].kind != Exception && calls[j].kind != Readable)
    && (forall i, j :: 0 <= i < j < |calls| ==> calls[i].kind != calls[j].kind)
  }

  /** A callback was made for everything that happened. */
  ghost predicate Complete(calls: seq<Delivery>, e: Ready) {
    && (e.readable ==> exists d <- calls :: d.kind == Readable)
    && (e.writable ==> exists d <- calls :: d.kind == Writable)
    && (e.exception ==> exists d <- calls :: d.kind == Exception)
  }

  lemma ReportedInTurn(e: Ready)
    ensures var r := Reported(e);
      && (forall k <- r ::
            && k != Check && (k == Readable ==> e.readable) && (k == Writable ==> e.writable)
            && (k == Exception ==> e.exception))
      && (forall i, j :: 0 <= i < j < |r| ==> r[i] != Exception && r[j] != Readable && r[i] != r[j])
      && (e.readable ==> r != [] && r[0] == Readable) && (e.exception ==> r != [] && r[|r| - 1] == Exception)
      && (e.writable ==> if e.readable then |r| > 1 && r[1] == Writable else r != [] && r[0] == Writable)
  {
  }

  lemma TakesTurns(calls: seq<Delivery>, e: Ready)
    requires AllFor(calls, e.stub) && Kinds(calls) <= Reported(e)
    ensures InTurn(calls, e)
    ensures Kinds(calls) == Reported(e) ==> Complete(calls, e)
    ensures calls != [] && e.readable ==> calls[0].kind == Readable
    ensures calls != [] && !e.readable && e.writable ==> calls[0].kind == Writable
  {
    hide Reported;
    ReportedInTurn(e);
    var r := Reported(e);
    assert forall i :: 0 <= i < |calls| ==> calls[i].kind == r[i] && r[i] in r;
    if Kinds(calls) == r {
      assert |calls| == |r|;
      assert e.readable ==> calls[0] in calls;
      assert e.writable ==> if e.readable then calls[1] in calls else calls[0] in calls;
      assert e.exception ==> calls[|r| - 1] in calls;
    }
  }

  /** The callbacks of a batch, event after event. */
  ghost function Calls(parts: seq<seq<Delivery>>): seq<Delivery> {
    if parts == [] then [] else Calls(parts[..|parts| - 1]) + parts[|parts| - 1]
  }

  /** The events of a batch so far, each with its callbacks; of one whose stub is not gone nothing was left out. */
  ghost predicate TurnByTurn(parts: seq<seq<Delivery>>, batch: seq<Ready>, gone: set<EventStub>) {
    && |parts| <= |batch|
    && forall i :: 0 <= i < |parts| ==>
      InTurn(parts[i], batch[i]) && (batch[i].stub !in gone ==> Complete(parts[i], batch[i]))
  }

  /** One that is gone stays gone. */
  lemma TurnsStay(parts: seq<seq<Delivery>>, batch: seq<Ready>, gone: set<EventStub>)
    requires TurnByTurn(parts, batch, gone)
    ensures forall more: set<EventStub> | gone <= more :: TurnByTurn(parts, batch, more)
  {
    hide InTurn, Complete;
  }

  /** What `epoll_wait` came to. */
  datatype Wait = Events(batch: seq<Ready>) | Interrupted | Failed

  /** The batches waited for, in order. */
  ghost function Batches(waits: seq<Wait>): seq<seq<Ready>> {
    if waits == [] then []
    else
      var last := waits[|waits| - 1];
      Batches(waits[..|waits| - 1]) + if last.Events? then [last.batch] else []
  }

  lemma BatchesNext(waits: seq<Wait>, w: Wait)
    ensures Batches(waits + [w]) == Batches(waits) + if w.Events? then [w.batch] else []
  {
    assert (waits + [w])[..|waits|] == waits;
  }

  /**
   * What one turn of the loop made of a batch, and at which time; a turn that is due checks the stubs registered after
   * the batch.
   */
  datatype Turn =
    Turn(batch: seq<Ready>, parts: seq<seq<Delivery>>, now: int, due: bool, snapshot: seq<EventStub>,
         checks: seq<Delivery>)

  /** When stubs were last checked, or the loop began. */
  ghost function LastCheck(turns: seq<Turn>, begin: int): int {
    if turns == [] then begin
    else
      var last := turns[|turns| - 1];
      if last.due then last.now else LastCheck(turns[..|turns| - 1], begin)
  }

  /** Every turn is due when more than 10 seconds have passed since the last check. */
  ghost predicate Paced(turns: seq<Turn>, begin: int) {
    forall i :: 0 <= i < |turns| ==> (turns[i].due <==> turns[i].now > LastCheck(turns[..i], begin) + 10)
  }

  lemma PacedNext(turns: seq<Turn>, turn: Turn, begin: int)
    requires Paced(turns, begin) && (turn.due <==> turn.now > LastCheck(turns, begin) + 10)
    ensures Paced(turns + [turn], begin)
    ensures LastCheck(turns + [turn], begin) == if turn.due then turn.now else LastCheck(turns, begin)
  {
    var more := turns + [turn];
    assert more[..|turns|] == turns;
    assert forall i :: 0 <= i < |turns| ==> more[..i] == turns[..i];
  }

  /**
   * The turns made: every batch waited for has one, in which every callback since was made in turn or is a check, and
   * a check is made when it is due.
   */
  ghost predicate Turned(turns: seq<Turn>, begin: int, log: seq<Delivery>, waits: seq<Wait>, gone: set<EventStub>) {
    && log == Worked(turns) && Paced(turns, begin) && BatchesOf(turns) == Batches(waits)
    && forall t <- turns ::
      && |t.parts| == |t.batch| && TurnByTurn(t.parts, t.batch, gone)
      && ChecksOf(t.checks, t.snapshot) && (!t.due ==> t.checks == [])
  }

  lemma NotTurned(begin: int, gone: set<EventStub>)
    ensures Turned([], begin, [], [], gone) && LastCheck([], begin) == begin
  {
  }

  lemma NoTurn(turns: seq<Turn>, begin: int, log: seq<Delivery>, waits: seq<Wait>, gone: set<EventStub>, w: Wait)
    requires Turned(turns, begin, log, waits, gone) && !w.Events?
    ensures Turned(turns, begin, log, waits + [w], gone)
  {
    hide Worked, Paced, Batches, TurnByTurn, ChecksOf;
    BatchesNext(waits, w);
  }

  lemma AnotherTurn(turns: seq<Turn>, begin: int, log: seq<Delivery>, waits: seq<Wait>, was: set<EventStub>,
                    turn: Turn, gone: set<EventStub>)
    requires Turned(turns, begin, log, waits, was) && was <= gone
    requires |turn.parts| == |turn.batch| && TurnByTurn(turn.parts, turn.batch, gone)
    requires ChecksOf(turn.checks, turn.snapshot) && (!turn.due ==> turn.checks == [])
    requires turn.due <==> turn.now > LastCheck(turns, begin) + 10
    ensures Turned(turns + [turn], begin, log + (Calls(turn.parts) + turn.checks), waits + [Events(turn.batch)], gone)
    ensures LastCheck(turns + [turn], begin) == if turn.due then turn.now else LastCheck(turns, begin)
  {
    hide Worked, Paced, Batches, TurnByTurn, ChecksOf, Calls, LastCheck;
    BatchesNext(waits, Events(turn.batch));
    WorkedNext(turns, turn);
    PacedNext(turns, turn, begin);
    assert BatchesOf(turns + [turn]) == BatchesOf(turns) + [turn.batch];
    forall t | t in turns ensures TurnByTurn(t.parts, t.batch, gone) {
      TurnsStay(t.parts, t.batch, was);
    }
  }

  ghost function BatchesOf(turns: seq<Turn>): seq<seq<Ready>> {
    seq(|turns|, i requires 0 <= i < |turns| => turns[i].batch)
  }

  /** The callbacks of some turns. */
  ghost function Worked(turns: seq<Turn>): seq<Delivery> {
    if turns == [] then []
    else Worked(turns[..|turns| - 1]) + Calls(turns[|turns| - 1].parts) + turns[|turns| - 1].checks
  }

  lemma WorkedNext(turns: seq<Turn>, turn: Turn)
    ensures Worked(turns + [turn]) == Worked(turns) + Calls(turn.parts) + turn.checks
  {
    assert (turns + [turn])[..|turns|] == turns;
  }

  lemma NoTurns(batch: seq<Ready>, gone: set<EventStub>)
    ensures TurnByTurn([], batch, gone) && Calls([]) == []
  {
  }

  lemma NextTurn(parts: seq<seq<Delivery>>, batch: seq<Ready>, was: set<EventStub>, part: seq<Delivery>,
                 gone: set<EventStub>)
    requires TurnByTurn(parts, batch, was) && was <= gone && |parts| < |batch|
    requires InTurn(part, batch[|parts|]) && (batch[|parts|].stub !in gone ==> Complete(part, batch[|parts|]))
    ensures TurnByTurn(parts + [part], batch, gone) && Calls(parts + [part]) == Calls(parts) + part
  {
    hide InTurn, Complete, Calls;
    CallsNext(parts, part);
  }

  lemma CallsNext(parts: seq<seq<Delivery>>, part: seq<Delivery>)
    ensures Calls(parts + [part]) == Calls(parts) + part
  {
    assert (parts + [part])[..|parts|] == parts;
  }

  lemma KindsOfNone(stub: EventStub)
    ensures Kinds([]) == [] && AllFor([], stub)
  {
  }

  /** One more callback for a stub, after those from position `n` on. */
  lemma Called(log: seq<Delivery>, n: nat, d: Delivery)
    requires n <= |log| && AllFor(log[n..], d.reported)
    ensures var after := log + [d]; AllFor(after[n..], d.reported) && Kinds(after[n..]) == Kinds(log[n..]) + [d.kind]
  {
    assert (log + [d])[n..] == log[n..] + [d];
  }

  /** Every callback answers some event of the batch. */
  ghost predicate AnswerTo(log: seq<Delivery>, batch: seq<Ready>) {
    forall d <- log :: exists e <- batch :: Answers(d, e)
  }

  lemma NoAnswers(batch: seq<Ready>)
    ensures AnswerTo([], batch)
  {
  }

  /** A prefix of what an event reports answers it. */
  lemma AnswersMore(log: seq<Delivery>, more: seq<Delivery>, batch: seq<Ready>, e: Ready)
    requires AnswerTo(log, batch) && e in batch
    requires AllFor(more, e.stub) && Kinds(more) <= Reported(e)
    ensures AnswerTo(log + more, batch)
  {
    forall d | d in log + more ensures exists x <- batch :: Answers(d, x) {
      if d !in log {
        var i :| 0 <= i < |more| && more[i] == d;
        assert Kinds(more)[i] == d.kind && Answers(d, e);
      }
    }
  }

  /** Every kind an event reports has been called back for. */
  ghost predicate Served(log: seq<Delivery>, e: Ready) {
    forall kind <- Reported(e) :: exists d <- log :: d.reported == e.stub && d.kind == kind
  }

  lemma ServedByAll(log: seq<Delivery>, e: Ready)
    requires AllFor(log, e.stub) && Kinds(log) == Reported(e)
    ensures Served(log, e)
  {
    forall kind | kind in Reported(e) ensures exists d <- log :: d.reported == e.stub && d.kind == kind {
      var i :| 0 <= i < |Reported(e)| && Reported(e)[i] == kind;
      assert Kinds(log)[i] == log[i].kind && log[i] in log;
    }
  }

  lemma ServedMore(log: seq<Delivery>, more: seq<Delivery>, e: Ready)
    requires Served(log, e) || Served(more, e)
    ensures Served(log + more, e)
  {
    if Served(log, e) {
      assert forall d <- log :: d in log + more;
    } else {
      assert forall d <- more :: d in log + more;
    }
  }

  ghost predicate Checked(log: seq<Delivery>, stub: EventStub) {
    exists d <- log :: d.reported == stub && d.kind.Check?
  }

  /** Nothing but checks of these stubs. */
  ghost predicate ChecksOf(log: seq<Delivery>, q: seq<EventStub>) {
    forall d <- log :: d.kind.Check? && d.reported in q
  }

  /** One more check, after those from position `n` on. */
  lemma OneCheck(log: seq<Delivery>, n: nat, q: seq<EventStub>, d: Delivery)
    requires n <= |log| && ChecksOf(log[n..], q) && d.kind.Check? && d.reported in q
    ensures ChecksOf((log + [d])[n..], q) && Checked((log + [d])[n..], d.reported)
    ensures forall s <- q :: Checked(log[n..], s) ==> Checked((log + [d])[n..], s)
  {
    var after := (log + [d])[n..];
    assert after == log[n..] + [d];
    assert after[|log| - n] == d;
    forall s | s in q && Checked(log[n..], s) ensures Checked(after, s) {
      var c :| c in log[n..] && c.reported == s && c.kind.Check?;
      assert c in after;
    }
  }

  /** Whatever was called back for a stub went to one listener. */
  ghost predicate Only(log: seq<Delivery>, stub: EventStub, listener: Listener) {
    forall d <- log | d.reported == stub :: d.listener == listener
  }

  lemma NoChecks(q: seq<EventStub>)
    ensures ChecksOf([], q)
  {
  }

  ghost predicate AllFor(log: seq<Delivery>, stub: EventStub) {
    forall d <- log :: d.reported == stub
  }

  class EpollReactor {
    var mFd2Events: map<int, EventStub>
    var mDelEventStubs: seq<EventStub>
    /** Every stub that was registered. */
    ghost var stubs: set<EventStub>
    /** The stubs the current batch or snapshot points to. */
    ghost var held: set<EventStub>
    /** The pointers the kernel has. */
    var interest: map<int, EventStub>
    /** What the kernel answered when asked for a change. */
    ghost var answers: seq<bool>
    ghost var log: seq<Delivery>
    /** Stubs no longer registered, and every listener given to a stub, in order. */
    ghost var gone: set<EventStub>
    ghost var gifts: seq<Gift>
    /** What `epoll_wait` came to, each time. */
    ghost var waits: seq<Wait>

    predicate Registered(s: EventStub)
      reads this`mFd2Events
    {
      s.fd in mFd2Events && mFd2Events[s.fd] == s
    }

    /** A stub is registered with a listener, or waits to be freed without one, or is freed; those held are not. */
    ghost predicate Stubs()
      reads this`mFd2Events, this`mDelEventStubs, this`stubs, this`held
      reads stubs`freed, stubs`eventFreed, stubs`listener
    {
      && (forall fd <- mFd2Events :: 0 <= fd && mFd2Events[fd] in stubs && mFd2Events[fd].fd == fd)
      && (forall s <- stubs | Registered(s) :: !s.freed && !s.eventFreed && s.listener.Handler?)
      && NoRepeats(mDelEventStubs)
      && (forall s <- mDelEventStubs :: s in stubs && !s.freed && s.eventFreed && s.listener.NoListener?)
      && (forall s <- stubs :: s.freed || Registered(s) || s in mDelEventStubs)
      && (forall s <- held :: s in stubs && !s.freed)
    }

    /** The kernel has no pointer but to what is registered. */
    ghost predicate Kernel()
      reads this`mFd2Events, this`interest
    {
      forall fd <- interest :: fd in mFd2Events && interest[fd] == mFd2Events[fd]
    }

    /** A stub registered has the listener it was given last. */
    ghost predicate Recorded()
      reads this`mFd2Events, this`stubs, this`gone, this`gifts, stubs`listener
    {
      && gone <= stubs
      && (forall s <- stubs :: Registered(s) <==> s !in gone)
      && (forall s <- stubs | Registered(s) :: s.listener == Holder(gifts, s))
    }

    /** Every callback was for the stub that the descriptor was registered with, at the listener given to it last. */
    ghost predicate Logged()
      reads this`log, this`gifts
    {
      forall d <- log ::
        d.reported == d.registered && d.given <= |gifts| && d.listener == Holder(gifts[..d.given], d.reported)
    }

    ghost predicate Valid()
      reads this`mFd2Events, this`mDelEventStubs, this`stubs, this`held, this`interest, this`log, this`gone, this`gifts
      reads stubs`freed, stubs`eventFreed, stubs`listener
    {
      Stubs() && Kernel() && Recorded() && Logged()
    }

    constructor ()
      ensures Valid() && mFd2Events == map[] && mDelEventStubs == [] && stubs == {} && held == {} && log == []
      ensures gone == {} && gifts == []
    {
      mFd2Events, mDelEventStubs := map[], [];
      stubs, held, interest, log, gone, gifts, answers, waits := {}, {}, map[], [], {}, [], [], [];
    }

    /** `epoll_ctl`: it may fail for any reason, and succeeds only where the kernel lets it. */
    method EpollCtl(op: Op, fd: int, stub: EventStub) returns (ok: bool)
      requires !stub.eventFreed
      modifies this`interest, this`answers
      ensures answers == old(answers) + [ok]
      ensures ok ==> (op.CtlAdd? <==> fd !in old(interest))
      ensures interest == if !ok || op.CtlMod? then old(interest)
        else if op.CtlAdd? then old(interest)[fd := stub] else old(interest) - {fd}
    {
      ok := *;
      if (fd in interest) == op.CtlAdd? {
        ok := false;
      }
      answers := answers + [ok];
      if ok && op.CtlAdd? {
        interest := interest[fd := stub];
      } else if ok && op.CtlDel? {
        interest := interest - {fd};
      }
    }

    /**
     * A descriptor not registered gets a new stub if the kernel takes it. One that is registered keeps its stub,
     * which has the new listener and the events added even when the kernel refuses the change.
     */
    method AddEvent(fd: int, events: set<Flag>, listener: nat) returns (r: int, ghost refused: EventStub?)
      requires Valid()
      modifies this`mFd2Events, this`stubs, this`interest, this`answers, this`gifts
      modifies stubs`events, stubs`epoll, stubs`listener
      ensures Valid() && (forall s <- stubs :: s in old(stubs) || fresh(s)) && old(stubs) <= stubs
      ensures if fd < 0 then r == -1 && unchanged(this)
        else |answers| == |old(answers)| + 1 && r == if answers[|old(answers)|] then 0 else 1
      ensures forall s <- old(stubs) | !old(Registered(s)) || s.fd != fd :: unchanged(s)
      ensures fd in old(mFd2Events) ==>
        && mFd2Events == old(mFd2Events) && (fd !in old(interest) ==> r == 1)
        && var s := mFd2Events[fd];
           && s.listener == Handler(listener)
           && s.events == old(s.events) + events && s.epoll == Converted(s.events)
      ensures fd !in old(mFd2Events) && r != 0 ==> mFd2Events == old(mFd2Events)
      ensures fd !in old(mFd2Events) && r == 0 ==>
        && fd in mFd2Events && mFd2Events == old(mFd2Events)[fd := mFd2Events[fd]]
        && var s := mFd2Events[fd];
           fresh(s) && s.listener == Handler(listener) && s.events == events && s.epoll == Converted(events)
      ensures fd !in old(mFd2Events) && r == 1 ==>
        refused != null && fresh(refused) && refused.fd == fd && refused.freed && refused.eventFreed
      ensures gifts == old(gifts) + if fd in mFd2Events then [Gift(mFd2Events[fd], Handler(listener))] else []
      ensures fd in mFd2Events ==> mFd2Events[fd] !in gone
    {
      hide EpollReactor.Stubs, EpollReactor.Recorded, EpollReactor.Logged;
      Enrolled(fd);
      if fd < 0 {
        return -1, null;
      }
      if fd in mFd2Events {
        var stub := mFd2Events[fd];
        stub.events := stub.events + events;
        stub.epoll := Converted(stub.events);
        Give(stub, listener);
        var ok := EpollCtl(CtlMod, fd, stub);
        if !ok {
          return 1, null;
        }
      } else {
        var stub := new EventStub(fd, events, Handler(listener));
        assert stub !in stubs;
        var ok := EpollCtl(CtlAdd, fd, stub);
        if !ok {
          stub.DeleteEvent();
          stub.Delete();
          return 1, stub;
        }
        Enroll(fd, stub);
      }
      return 0, null;
    }

    /** A stub that is registered gets another listener. */
    method Give(stub: EventStub, listener: nat)
      requires Valid() && stub in stubs && Registered(stub)
      modifies this`gifts, stub`listener
      ensures Valid() && stub.listener == Handler(listener) && gifts == old(gifts) + [Gift(stub, Handler(listener))]
      ensures stub !in gone
    {
      hide EpollReactor.Kernel, Holder;
      HolderNext(gifts, Gift(stub, Handler(listener)));
      assert forall m :: 0 <= m <= |gifts| ==> (gifts + [Gift(stub, Handler(listener))])[..m] == gifts[..m];
      stub.listener := Handler(listener);
      gifts := gifts + [Gift(stub, Handler(listener))];
    }

    /** The kernel has taken a new stub. */
    method Enroll(fd: int, stub: EventStub)
      requires Stubs() && Recorded() && Logged() && 0 <= fd == stub.fd && fd !in mFd2Events && stub !in stubs
      requires !stub.freed && !stub.eventFreed && stub.listener.Handler?
      requires forall f <- interest ::
        if f == fd then interest[f] == stub else f in mFd2Events && interest[f] == mFd2Events[f]
      modifies this`mFd2Events, this`stubs, this`gifts
      ensures Valid() && mFd2Events == old(mFd2Events)[fd := stub] && stubs == old(stubs) + {stub}
      ensures gifts == old(gifts) + [Gift(stub, stub.listener)] && stub !in gone
    {
      hide Holder;
      HolderNext(gifts, Gift(stub, stub.listener));
      assert forall m :: 0 <= m <= |gifts| ==> (gifts + [Gift(stub, stub.listener)])[..m] == gifts[..m];
      mFd2Events := mFd2Events[fd := stub];
      stubs := stubs + {stub};
      gifts := gifts + [Gift(stub, stub.listener)];
    }

    /**
     * Takes events from a descriptor and, when none are left and the kernel lets go of it, its registration. When the
     * kernel refuses, the stub has lost the events all the same and stays registered with its listener.
     */
    method DelEvent(fd: int, events: set<Flag>) returns (r: int)
      requires Valid()
      modifies this`mFd2Events, this`mDelEventStubs, this`interest, this`answers, this`gone
      modifies stubs`events, stubs`epoll, stubs`listener, stubs`eventFreed
      ensures Valid() && old(gone) <= gone
      ensures if fd !in old(mFd2Events) then r == -1 && unchanged(this)
        else |answers| == |old(answers)| + 1 && r == if answers[|old(answers)|] then 0 else -1
      ensures forall s <- stubs | !old(Registered(s)) || s.fd != fd :: unchanged(s)
      ensures fd in old(mFd2Events) ==> var s := old(mFd2Events)[fd];
        s.events == old(s.events) - events && s.epoll == Converted(s.events)
      ensures if fd in old(mFd2Events) && r == 0 && old(mFd2Events[fd].events) - events == {}
        then mFd2Events == old(mFd2Events) - {fd} && mDelEventStubs == old(mDelEventStubs) + [old(mFd2Events)[fd]]
        else mFd2Events == old(mFd2Events) && mDelEventStubs == old(mDelEventStubs)
      ensures fd in mFd2Events ==> mFd2Events[fd].listener == old(mFd2Events[fd].listener)
    {
      hide EpollReactor.Stubs, EpollReactor.Recorded, EpollReactor.Logged;
      if fd !in mFd2Events {
        return -1;
      }
      Enrolled(fd);
      // A registered stub always has a listener, so the source's check for none is never taken.
      var stub := mFd2Events[fd];
      stub.events := stub.events - events;
      stub.epoll := Converted(stub.events);
      var op := if stub.events == {} then CtlDel else CtlMod;
      var ok := EpollCtl(op, fd, stub);
      if !ok {
        return -1;
      }
      if op.CtlDel? {
        Defer(fd, stub);
      }
      return 0;
    }

    lemma Enrolled(fd: int)
      requires Valid()
      ensures fd in mFd2Events ==>
        var s := mFd2Events[fd]; 0 <= fd == s.fd && s in stubs && !s.freed && !s.eventFreed && Registered(s)
    {
      hide EpollReactor.Recorded, EpollReactor.Logged;
    }

    /** A registered stub does not wait to be freed yet. */
    lemma Waiting(stub: EventStub)
      requires Valid() && Registered(stub)
      ensures NoRepeats(mDelEventStubs + [stub])
      ensures forall s :: s in mDelEventStubs + [stub] <==> s in mDelEventStubs || s == stub
    {
      hide EpollReactor.Recorded, EpollReactor.Logged, EpollReactor.Kernel;
    }

    /** The kernel has let go of a stub: it is no longer registered, and freed when the batch is over. */
    method Defer(fd: int, stub: EventStub)
      requires Valid() && fd in mFd2Events && stub == mFd2Events[fd] && fd !in interest
      modifies this`mFd2Events, this`mDelEventStubs, this`gone, stub`listener, stub`eventFreed
      ensures Valid() && gone == old(gone) + {stub}
      ensures mFd2Events == old(mFd2Events) - {fd} && mDelEventStubs == old(mDelEventStubs) + [stub]
    {
      hide NoRepeats, Holder, EpollReactor.Logged;
      Waiting(stub);
      stub.DeleteEvent();
      stub.listener := NoListener;
      mDelEventStubs := mDelEventStubs + [stub];
      mFd2Events := mFd2Events - {fd};
      gone := gone + {stub};
    }

    /**
     * Stubs are only added; one that is no longer registered never is again; what was given and called is on record.
     */
    twostate predicate Grown()
      reads this`stubs, this`gone, this`gifts, this`log
    {
      && old(stubs) <= stubs && (forall s <- stubs :: s in old(stubs) || fresh(s))
      && old(gone) <= gone && old(gifts) <= gifts && old(log) <= log
      && (forall k :: |old(log)| <= k < |log| ==> |old(gifts)| <= log[k].given)
      && GivenSince(gifts, |old(gifts)|, old(gone))
    }

    method Execute(c: Command)
      requires Valid()
      modifies this`mFd2Events, this`mDelEventStubs, this`stubs, this`interest, this`answers, this`gone, this`gifts
      modifies stubs`events, stubs`epoll, stubs`listener, stubs`eventFreed
      ensures Valid() && Grown()
      ensures c.Close? ==> c.fd !in interest
      ensures c.Add? && c.fd in mFd2Events ==> gifts == old(gifts) + [Gift(mFd2Events[c.fd], Handler(c.listener))]
      ensures c.Del? && c.fd in old(mFd2Events) ==>
        old(mFd2Events)[c.fd].events == old(mFd2Events[c.fd].events) - c.events
    {
      hide EpollReactor.Valid;
      match c
      case Add(fd, events, listener) =>
        var r;
        ghost var refused;
        r, refused := AddEvent(fd, events, listener);
      case Del(fd, events) =>
        var r := DelEvent(fd, events);
      case Close(fd) =>
        Forget(fd);
    }

    /** The kernel forgets a descriptor that is closed. */
    method Forget(fd: int)
      requires Valid()
      modifies this`interest, this`answers
      ensures Valid() && fd !in interest
    {
      interest := interest - {fd};
    }

    /**
     * Calls a handler for a stub, which must be what its descriptor is registered with; the handler does as it likes.
     */
    method Callback(stub: EventStub, kind: Kind)
      requires Valid() && stub in stubs && Registered(stub) && stub.listener.Handler?
      modifies this`mFd2Events, this`mDelEventStubs, this`stubs, this`interest, this`answers, this`gone, this`gifts
      modifies this`log
      modifies stubs`events, stubs`epoll, stubs`listener, stubs`eventFreed
      ensures Valid() && Grown()
      ensures log == old(log) + [Delivery(stub, stub, old(stub.listener), kind, |old(gifts)|)]
    {
      hide EpollReactor.Valid;
      Log(Delivery(stub, mFd2Events[stub.fd], stub.listener, kind, |gifts|));
      var script: seq<Command> :| true;
      for i := 0 to |script|
        invariant Valid() && Grown()
        invariant log == old(log) + [Delivery(stub, stub, old(stub.listener), kind, |old(gifts)|)]
      {
        Execute(script[i]);
      }
    }

    ghost method Log(d: Delivery)
      requires Valid() && Registered(d.reported) && d.reported in stubs
      requires d.registered == d.reported && d.listener == d.reported.listener && d.given == |gifts|
      modifies this`log
      ensures Valid() && log == old(log) + [d]
    {
      hide EpollReactor.Stubs, EpollReactor.Kernel, Holder;
      assert gifts[..|gifts|] == gifts;
      log := log + [d];
    }

    /** A stub held by the batch is allocated, and has a listener exactly as long as it is registered. */
    lemma HeldStub(s: EventStub)
      requires Valid() && s in held
      ensures s in stubs && !s.freed && (s.listener.Handler? <==> Registered(s)) && (Registered(s) <==> s !in gone)
      ensures Registered(s) ==> s.listener == Holder(gifts, s)
    {
    }

    /** One registered before and now was registered all the while. */
    twostate lemma StillRegistered(s: EventStub)
      requires old(Valid()) && Valid() && Grown() && s in old(stubs) && Registered(s)
      ensures old(Registered(s))
    {
      hide EpollReactor.Stubs, EpollReactor.Kernel, EpollReactor.Logged;
    }

    /** What was called back for a stub since went to the listener it had, unless `addEvent` gave it another. */
    twostate predicate LoyalTo(s: EventStub)
      reads this`log, this`gifts
    {
      && |old(log)| <= |log| && |old(gifts)| <= |gifts|
      && (NoneFor(gifts[|old(gifts)|..], s) ==> Only(log[|old(log)|..], s, old(s.listener)))
    }

    /** The listener of a stub stays while it is given no other; one no longer registered is given none. */
    twostate lemma Loyalty(s: EventStub)
      requires old(Valid()) && Valid() && Grown() && s in old(stubs)
      ensures old(Registered(s)) ==> LoyalTo(s)
      ensures !old(Registered(s)) ==> NoneFor(gifts[|old(gifts)|..], s)
    {
      hide EpollReactor.Stubs, EpollReactor.Kernel, Holder;
      if old(Registered(s)) && NoneFor(gifts[|old(gifts)|..], s) {
        forall d | d in log[|old(log)|..] && d.reported == s ensures d.listener == old(s.listener) {
          var k :| |old(log)| <= k < |log| && log[k] == d;
          HolderSince(gifts, |old(gifts)|, d.given, s);
          assert gifts[..|old(gifts)|] == old(gifts);
        }
      }
    }

    /**
     * One event of a batch: the kinds reported, in order, cut short only when the stub is removed. A stub removed
     * before its turn gets nothing.
     */
    method DispatchOne(e: Ready)
      requires Valid() && e.stub in held
      modifies this`mFd2Events, this`mDelEventStubs, this`stubs, this`interest, this`answers, this`gone, this`gifts
      modifies this`log
      modifies stubs`events, stubs`epoll, stubs`listener, stubs`eventFreed
      ensures Valid() && Grown() && old(log) <= log
      ensures AllFor(log[|old(log)|..], e.stub) && Kinds(log[|old(log)|..]) <= Reported(e)
      ensures InTurn(log[|old(log)|..], e)
      ensures Registered(e.stub) ==> Complete(log[|old(log)|..], e)
      ensures old(Registered(e.stub)) && e.readable ==> |old(log)| < |log| && log[|old(log)|].kind == Readable
      ensures old(Registered(e.stub)) && !e.readable && e.writable ==>
        |old(log)| < |log| && log[|old(log)|].kind == Writable
      ensures !old(Registered(e.stub)) ==> log == old(log)
      ensures Registered(e.stub) ==> Kinds(log[|old(log)|..]) == Reported(e)
      ensures old(Registered(e.stub)) && Reported(e) != [] ==> log != old(log)
      ensures log != old(log) ==> log[|old(log)|].listener == old(e.stub.listener)
      ensures old(Registered(e.stub)) ==> LoyalTo(e.stub)
    {
      hide EpollReactor.Valid, Kinds, AllFor, EpollReactor.LoyalTo, InTurn, Complete;
      ghost var n := |log|;
      var stub := e.stub;
      HeldStub(stub);
      KindsOfNone(stub);
      assert log[n..] == [];
      if stub.listener.NoListener? {
        TakesTurns([], e);
        return;
      }
      Answer(stub, Readable, e.readable, n);
      AnswerRest(e, n);
      Loyalty(stub);
      TakesTurns(log[n..], e);
    }

    /** The kinds after the first. */
    method AnswerRest(e: Ready, ghost n: nat)
      requires Valid() && e.stub in held && n <= |log| && AllFor(log[n..], e.stub)
      modifies this`mFd2Events, this`mDelEventStubs, this`stubs, this`interest, this`answers, this`gone, this`gifts
      modifies this`log
      modifies stubs`events, stubs`epoll, stubs`listener, stubs`eventFreed
      ensures Valid() && Grown() && n <= |log| && AllFor(log[n..], e.stub)
      ensures Registered(e.stub) ==> old(Registered(e.stub))
      ensures var rest := (if e.writable then [Writable] else []) + if e.exception then [Exception] else [];
        && Kinds(log[n..]) <= old(Kinds(log[n..])) + rest
        && (Registered(e.stub) ==> Kinds(log[n..]) == old(Kinds(log[n..])) + rest)
        && (old(Registered(e.stub)) && rest != [] ==> log != old(log))
      ensures !old(Registered(e.stub)) ==> log == old(log)
      ensures log != old(log) ==> log[|old(log)|].listener == old(e.stub.listener)
    {
      hide EpollReactor.Valid, Kinds, AllFor;
      Answer(e.stub, Writable, e.writable, n);
      Answer(e.stub, Exception, e.exception, n);
    }

    /** Calls back for one kind if it was reported and the stub still has a listener. */
    method Answer(stub: EventStub, kind: Kind, happened: bool, ghost n: nat)
      requires Valid() && stub in held && n <= |log| && AllFor(log[n..], stub)
      modifies this`mFd2Events, this`mDelEventStubs, this`stubs, this`interest, this`answers, this`gone, this`gifts
      modifies this`log
      modifies stubs`events, stubs`epoll, stubs`listener, stubs`eventFreed
      ensures Valid() && Grown() && n <= |log| && AllFor(log[n..], stub)
      ensures Registered(stub) ==> old(Registered(stub))
      ensures if happened && old(Registered(stub))
        then log == old(log) + [Delivery(stub, stub, old(stub.listener), kind, |old(gifts)|)]
          && Kinds(log[n..]) == old(Kinds(log[n..])) + [kind]
        else log == old(log) && Registered(stub) == old(Registered(stub)) && stub.listener == old(stub.listener)
    {
      hide EpollReactor.Valid, Kinds, AllFor;
      HeldStub(stub);
      if stub.listener.Handler? && happened {
        Called(log, n, Delivery(stub, stub, stub.listener, kind, |gifts|));
        Callback(stub, kind);
        HeldStub(stub);
      }
    }

    /**
     * A descriptor closed behind the reactor's back and added again with another listener keeps its stub, so what is
     * left of the batch for the old descriptor goes to the new listener, although `addEvent` fails.
     */
    method Reused(e: Ready, events: set<Flag>, listener: nat) returns (r: int)
      requires Valid() && e.stub in held && Registered(e.stub) && Reported(e) != []
      modifies this`mFd2Events, this`mDelEventStubs, this`stubs, this`interest, this`answers, this`gone, this`gifts
      modifies this`log
      modifies stubs`events, stubs`epoll, stubs`listener, stubs`eventFreed
      ensures Valid() && r == 1 && |old(log)| < |log|
      ensures var d := log[|old(log)|]; d.reported == e.stub && d.listener == Handler(listener)
    {
      hide EpollReactor.Valid, Kinds, EpollReactor.LoyalTo;
      HeldStub(e.stub);
      Forget(e.stub.fd);
      ghost var refused;
      r, refused := AddEvent(e.stub.fd, events, listener);
      ghost var n := |log|;
      DispatchOne(e);
      assert log[n..][0] == log[n];
    }

    /** What a batch has come to: its callbacks from position `n` of the log on, event after event. */
    ghost predicate Dispatched(batch: seq<Ready>, n: nat, parts: seq<seq<Delivery>>)
      reads this`log, this`gone
    {
      && n <= |log| && |parts| <= |batch| && log[n..] == Calls(parts)
      && AnswerTo(log[n..], batch) && TurnByTurn(parts, batch, gone)
      && (forall j :: 0 <= j < |parts| && batch[j].stub !in gone ==> Served(log[n..], batch[j]))
    }

    lemma NoneDispatched(batch: seq<Ready>)
      ensures Dispatched(batch, |log|, [])
    {
      NoAnswers(batch);
      assert log[|log|..] == [];
    }

    /** The next event of a batch. */
    method DispatchNext(batch: seq<Ready>, i: nat, ghost n: nat, ghost parts: seq<seq<Delivery>>)
      returns (ghost parts': seq<seq<Delivery>>)
      requires Valid() && i == |parts| < |batch| && batch[i].stub in held && Dispatched(batch, n, parts)
      modifies this`mFd2Events, this`mDelEventStubs, this`stubs, this`interest, this`answers, this`gone, this`gifts
      modifies this`log
      modifies stubs`events, stubs`epoll, stubs`listener, stubs`eventFreed
      ensures Valid() && Grown() && |parts'| == i + 1 && Dispatched(batch, n, parts')
    {
      hide EpollReactor.Valid, Served, AnswerTo, EpollReactor.LoyalTo, InTurn, Complete, TurnByTurn, Calls, Reported;
      hide Kinds, AllFor;
      assert batch[i] in batch;
      ghost var before, was := log, gone;
      DispatchOne(batch[i]);
      HeldStub(batch[i].stub);
      ghost var more := log[|before|..];
      AnswersMore(before[n..], more, batch, batch[i]);
      ServedSoFar(batch, i, before[n..], more);
      NextTurn(parts, batch, was, more, gone);
      assert log[n..] == before[n..] + more;
      parts' := parts + [more];
    }

    /** A batch from `epoll_wait`. Its pointers stay good to its end, whatever the handlers do. */
    method DispatchEvent(batch: seq<Ready>) returns (ghost parts: seq<seq<Delivery>>)
      requires Valid() && held == {} && forall e <- batch :: e.stub in stubs && Registered(e.stub)
      modifies this`mFd2Events, this`mDelEventStubs, this`stubs, this`interest, this`answers, this`gone, this`gifts
      modifies this`log
      modifies this`held
      modifies stubs`events, stubs`epoll, stubs`listener, stubs`eventFreed
      ensures Valid() && Grown() && held == {} && forall e <- batch :: !e.stub.freed
      ensures |parts| == |batch| && log == old(log) + Calls(parts) && TurnByTurn(parts, batch, gone)
      ensures AnswerTo(log[|old(log)|..], batch)
      ensures forall e <- batch | Registered(e.stub) :: Served(log[|old(log)|..], e)
      ensures forall e <- batch :: LoyalTo(e.stub)
    {
      hide EpollReactor.Valid, Served, AnswerTo, EpollReactor.LoyalTo, TurnByTurn, Calls, EpollReactor.Dispatched;
      NoneDispatched(batch);
      Hold(set e <- batch :: e.stub);
      parts := [];
      for i := 0 to |batch|
        invariant Valid() && Grown() && |parts| == i && forall e <- batch :: e.stub in held
        invariant Dispatched(batch, |old(log)|, parts)
      {
        assert batch[i] in batch;
        parts := DispatchNext(batch, i, |old(log)|, parts);
      }
      AllDispatched(batch, |old(log)|, parts);
      forall e | e in batch
        ensures !e.stub.freed && LoyalTo(e.stub) && (Registered(e.stub) <==> e.stub !in gone)
      {
        HeldStub(e.stub);
        Loyalty(e.stub);
      }
      LetGo();
    }

    lemma AllDispatched(batch: seq<Ready>, n: nat, parts: seq<seq<Delivery>>)
      requires Dispatched(batch, n, parts) && |parts| == |batch|
      ensures n <= |log| && log == log[..n] + Calls(parts) && TurnByTurn(parts, batch, gone)
      ensures AnswerTo(log[n..], batch) && forall e <- batch | e.stub !in gone :: Served(log[n..], e)
    {
      hide Served, AnswerTo, TurnByTurn, Calls;
    }

    /** The events before `i` served before, and the one at `i` now, are served in the longer log. */
    lemma ServedSoFar(batch: seq<Ready>, i: nat, log: seq<Delivery>, more: seq<Delivery>)
      requires i < |batch|
      requires Registered(batch[i].stub) ==> AllFor(more, batch[i].stub) && Kinds(more) == Reported(batch[i])
      ensures Registered(batch[i].stub) ==> Served(log + more, batch[i])
      ensures forall j :: 0 <= j < i && Served(log, batch[j]) ==> Served(log + more, batch[j])
    {
      hide Served;
      if Registered(batch[i].stub) {
        ServedByAll(more, batch[i]);
        ServedMore(log, more, batch[i]);
      }
      forall j | 0 <= j < i && Served(log, batch[j]) ensures Served(log + more, batch[j]) {
        ServedMore(log, more, batch[j]);
      }
    }

    ghost method Hold(s: set<EventStub>)
      requires Valid() && forall x <- s :: x in stubs && Registered(x)
      modifies this`held
      ensures Valid() && held == s
    {
      held := s;
    }

    ghost method LetGo()
      requires Valid()
      modifies this`held
      ensures Valid() && held == {}
    {
      held := {};
    }

    /** The stubs registered when the check begins. */
    method Snapshot() returns (q: seq<EventStub>)
      requires Valid()
      ensures forall s <- q :: s in stubs && Registered(s)
      ensures forall fd <- mFd2Events :: mFd2Events[fd] in q
    {
      var left: set<int> := mFd2Events.Keys;
      q := [];
      while exists fd :: fd in left
        invariant left <= mFd2Events.Keys
        invariant forall s <- q :: s in stubs && Registered(s)
        invariant forall fd <- mFd2Events :: fd in left || mFd2Events[fd] in q
        decreases left
      {
        var fd :| fd in left;
        left := left - {fd};
        q := q + [mFd2Events[fd]];
      }
    }

    /** The periodic check of one stub of the snapshot `q`, if it still has a listener. */
    method CheckOne(stub: EventStub, ghost n: nat, ghost q: seq<EventStub>)
      requires Valid() && stub in held && stub in q && n <= |log| && ChecksOf(log[n..], q)
      modifies this`mFd2Events, this`mDelEventStubs, this`stubs, this`interest, this`answers, this`gone, this`gifts
      modifies this`log
      modifies stubs`events, stubs`epoll, stubs`listener, stubs`eventFreed
      ensures Valid() && Grown() && n <= |log| && ChecksOf(log[n..], q)
      ensures forall s <- q :: old(Checked(log[n..], s)) ==> Checked(log[n..], s)
      ensures stub in gone || Checked(log[n..], stub)
    {
      hide EpollReactor.Valid, Checked, ChecksOf;
      HeldStub(stub);
      if stub.listener.Handler? {
        OneCheck(log, n, q, Delivery(stub, stub, stub.listener, Check, |gifts|));
        Callback(stub, Check);
      }
    }

    /** The periodic check of every stub registered when it begins, as long as it keeps a listener. */
    method DispatchCheck() returns (ghost snapshot: seq<EventStub>)
      requires Valid() && held == {}
      modifies this`mFd2Events, this`mDelEventStubs, this`stubs, this`interest, this`answers, this`gone, this`gifts
      modifies this`log
      modifies this`held
      modifies stubs`events, stubs`epoll, stubs`listener, stubs`eventFreed
      ensures Valid() && Grown() && held == {} && forall s <- snapshot :: !s.freed
      ensures forall fd <- old(mFd2Events) :: old(mFd2Events)[fd] in snapshot
      ensures old(log) <= log && ChecksOf(log[|old(log)|..], snapshot)
      ensures forall s <- old(stubs) | Registered(s) :: Checked(log[|old(log)|..], s)
      ensures forall s <- snapshot | Registered(s) :: Checked(log[|old(log)|..], s)
      ensures forall fd <- old(mFd2Events) :: LoyalTo(old(mFd2Events)[fd])
    {
      hide EpollReactor.Valid, EpollReactor.LoyalTo, Checked, ChecksOf;
      var q := Snapshot();
      assert log[|log|..] == [];
      NoChecks(q);
      snapshot := q;
      Hold(set s <- q);
      for i := 0 to |q|
        invariant Valid() && Grown() && forall s <- q :: s in held
        invariant old(log) <= log && ChecksOf(log[|old(log)|..], q)
        invariant forall s <- q[..i] :: s in gone || Checked(log[|old(log)|..], s)
      {
        assert q[..i + 1] == q[..i] + [q[i]];
        CheckOne(q[i], |old(log)|, q);
      }
      assert q[..|q|] == q;
      forall s | s in q ensures !s.freed && (Registered(s) ==> s !in gone) {
        HeldStub(s);
      }
      forall fd | fd in old(mFd2Events) ensures LoyalTo(old(mFd2Events)[fd]) {
        Loyalty(old(mFd2Events)[fd]);
      }
      forall s | s in old(stubs) && Registered(s) ensures s in q {
        StillRegistered(s);
      }
      LetGo();
    }

    /** `epoll_wait`: an error, which may be an interruption, or up to `MAX_EVENTS` of the pointers registered. */
    method EpollWait() returns (ready: int, interrupted: bool, batch: seq<Ready>)
      requires Valid()
      modifies this`waits
      ensures ready == |batch| <= 20 || (ready < 0 && batch == [])
      ensures forall e <- batch :: e.stub in stubs && Registered(e.stub)
      ensures waits == old(waits) + [if ready >= 0 then Events(batch) else if interrupted then Interrupted else Failed]
    {
      batch :| |batch| <= MAX_EVENTS && forall e <- batch :: e.stub.fd in interest && interest[e.stub.fd] == e.stub;
      ready, interrupted := |batch|, false;
      if * {
        interrupted := *;
        ready, batch := -1, [];
      }
      waits := waits + [if ready >= 0 then Events(batch) else if interrupted then Interrupted else Failed];
    }

    /**
     * A batch is dispatched; when it is due every stub that was registered before the batch and still is is checked;
     * and what was removed meanwhile is freed.
     */
    method Work(batch: seq<Ready>, lastCheck: int) returns (lastCheck': int, ghost turn: Turn)
      requires Valid() && held == {} && forall e <- batch :: e.stub in stubs && Registered(e.stub)
      modifies this, stubs
      ensures Valid() && Grown() && held == {} && mDelEventStubs == [] && turn.batch == batch && waits == old(waits)
      ensures log == old(log) + Calls(turn.parts) + turn.checks && |turn.parts| == |batch|
      ensures TurnByTurn(turn.parts, batch, gone) && ChecksOf(turn.checks, turn.snapshot)
      ensures turn.due <==> turn.now > lastCheck + 10
      ensures lastCheck' == if turn.due then turn.now else lastCheck
      ensures if turn.due then forall s <- old(stubs) | Registered(s) :: Checked(turn.checks, s) else turn.checks == []
    {
      hide EpollReactor.Valid, EpollReactor.LoyalTo, Served, AnswerTo, TurnByTurn, Calls, Checked, ChecksOf;
      ghost var parts := DispatchEvent(batch);
      ghost var before, was, snapshot, known, fds := log, gone, [], stubs, mFd2Events;
      NoChecks([]);
      assert log[|before|..] == [];
      var now: int := *;
      lastCheck' := lastCheck;
      if now > lastCheck + CHECK_PERIOD {
        lastCheck' := now;
        snapshot := DispatchCheck();
      }
      turn := Turn(batch, parts, now, now > lastCheck + CHECK_PERIOD, snapshot, log[|before|..]);
      assert log == before + turn.checks;
      TurnsStay(parts, batch, was);
      CleanDeletedEvents();
    }

    /**
     * The loop in `start`, for at most so many turns; a handler may stop it, and so does an error other than an
     * interruption. After each turn nothing waits to be freed.
     */
    method Start(turns: nat) returns (ghost done: seq<Turn>, ghost begin: int)
      requires Valid() && held == {}
      modifies this, stubs
      ensures Valid() && Grown() && held == {}
      ensures old(waits) <= waits && Turned(done, begin, log[|old(log)|..], waits[|old(waits)|..], gone)
      ensures |waits| == |old(waits)| + turns || (|waits| > |old(waits)| && waits[|waits| - 1].Failed?)
      ensures if done == [] then mDelEventStubs == old(mDelEventStubs) else mDelEventStubs == []
    {
      hide EpollReactor.Valid, TurnByTurn, Calls, ChecksOf, Turned, LastCheck, Checked;
      done := [];
      var lastCheck: int := *;
      begin := lastCheck;
      NotTurned(begin, gone);
      NothingSince();
      for i := 0 to turns
        invariant Valid() && Grown() && held == {} && lastCheck == LastCheck(done, begin)
        invariant old(waits) <= waits && |waits| == |old(waits)| + i
        invariant Turned(done, begin, log[|old(log)|..], waits[|old(waits)|..], gone)
        invariant if done == [] then mDelEventStubs == old(mDelEventStubs) else mDelEventStubs == []
      {
        ghost var before, so, was := waits[|old(waits)|..], log[|old(log)|..], gone;
        var ready, interrupted, batch := EpollWait();
        assert waits[|old(waits)|..] == before + [waits[|waits| - 1]];
        if ready < 0 {
          NoTurn(done, begin, so, before, gone, waits[|waits| - 1]);
          if interrupted {
            continue;
          }
          break;
        }
        ghost var turn;
        lastCheck, turn := Work(batch, lastCheck);
        AnotherTurn(done, begin, so, before, was, turn, gone);
        assert log[|old(log)|..] == so + (Calls(turn.parts) + turn.checks);
        done := done + [turn];
      }
    }

    lemma NothingSince()
      ensures log[|log|..] == [] && waits[|waits|..] == []
    {
    }

    method CleanDeletedEvents()
      requires Valid() && held == {}
      modifies this`mDelEventStubs, stubs`freed
      ensures Valid() && mDelEventStubs == []
      ensures forall s <- stubs :: s.freed <==> old(s.freed) || s in old(mDelEventStubs)
    {
      ghost var q := mDelEventStubs;
      var i := 0;
      while i < |mDelEventStubs|
        invariant i <= |q| && mDelEventStubs == q
        invariant forall s <- stubs :: s.freed <==> old(s.freed) || s in q[..i]
      {
        assert q[i] in q;
        mDelEventStubs[i].Delete();
        i := i + 1;
      }
      mDelEventStubs := [];
    }
  }
}
