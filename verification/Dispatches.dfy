/** Websockets and the queue of dispatches they feed.

    A socket owns references that scripts see.  They are used by dispatches that
    run later, and given back by one more dispatch when the socket is closed. */
module Dispatches {

  /** `Message` fires the message event, `RemoteClosed` closes the socket unless it
      is closing, `CloseNotice` fires the close event, and `Release` destroys both
      events and gives all references of the socket back. */
  datatype Dispatch<S> =
    | Message(socket: S)
    | RemoteClosed(socket: S)
    | CloseNotice(socket: S)
    | Release(socket: S)

  /** The queue holds the dispatch that is running, if any, at its head; `ran` is
      the history of the dispatches that were begun. */
  datatype Sockets<S(==)> = Sockets(useable: set<S>, closing: set<S>, queue: seq<Dispatch<S>>, running: bool,
                                    ran: seq<Dispatch<S>>)

  function NoSockets<S(==)>(): Sockets<S> {
    Sockets({}, {}, [], false, [])
  }

  // ----- steps -----

  function Append<S(==)>(t: Sockets<S>, d: Dispatch<S>): Sockets<S> {
    t.(queue := t.queue + [d])
  }

  function Close<S(==)>(t: Sockets<S>, s: S, notify: bool): Sockets<S> {
    if s in t.closing then t
    else
      var shut := t.(closing := t.closing + {s}, useable := t.useable - {s});
      Append(if notify then Append(shut, CloseNotice(s)) else shut, Release(s))
  }

  function Started<S(==)>(t: Sockets<S>): Sockets<S>
    requires t.queue != []
  {
    t.(running := true, ran := t.ran + [t.queue[0]])
  }

  /** Begin the dispatch at the head of the queue.  It stays there until it ends. */
  function Begin<S(==)>(t: Sockets<S>): Sockets<S> {
    if t.running || t.queue == [] then t
    else if t.queue[0].RemoteClosed? then Close(Started(t), t.queue[0].socket, true)
    else Started(t)
  }

  function End<S(==)>(t: Sockets<S>): Sockets<S> {
    if t.running && t.queue != [] then t.(running := false, queue := t.queue[1..]) else t
  }

  /** What can happen, from any thread and at any time, also while a dispatch runs.
      Scripts close sockets through a guard; the thread that waits for a connection
      closes a socket that did not connect without one, and without a notice. */
  datatype Event<S> =
    | Created(socket: S)
    | MessageArrived(socket: S)
    | RemoteCloseArrived(socket: S)
    | LocallyClosed(socket: S)
    | TimedOut(socket: S)
    | Begun
    | Ended

  ghost predicate Possible<S>(t: Sockets<S>, e: Event<S>) {
    match e
    case Created(s) => s !in t.useable + t.closing
    case Begun => !t.running && t.queue != []
    case Ended => t.running
    case _ => e.socket in t.useable + t.closing
  }

  function Next<S(==)>(t: Sockets<S>, e: Event<S>): Sockets<S> {
    match e
    case Created(s) => t.(useable := t.useable + {s})
    case MessageArrived(s) => if s in t.useable then Append(t, Message(s)) else t
    case RemoteCloseArrived(s) => if s in t.useable then Append(t, RemoteClosed(s)) else t
    case LocallyClosed(s) => if s in t.useable then Close(t, s, true) else t
    case TimedOut(s) => Close(t, s, false)
    case Begun => Begin(t)
    case Ended => End(t)
  }

  // ----- runs -----

  function After<S(==)>(t: Sockets<S>, events: seq<Event<S>>): Sockets<S> {
    if events == [] then t else Next(After(t, events[..|events| - 1]), events[|events| - 1])
  }

  ghost predicate IsRun<S>(t: Sockets<S>, events: seq<Event<S>>) {
    events != [] ==>
      var before := events[..|events| - 1];
      IsRun(t, before) && Possible(After(t, before), events[|events| - 1])
  }

  /** All dispatches ever queued, in the order they were queued: those begun, then
      those that wait. */
  function Log<S>(t: Sockets<S>): seq<Dispatch<S>> {
    t.ran + if t.running && t.queue != [] then t.queue[1..] else t.queue
  }

  /** Nothing about a socket is queued after its release, and only the release after
      its close notice. */
  ghost predicate Orderly<S>(log: seq<Dispatch<S>>) {
    && (forall i, j :: 0 <= i < j < |log| && log[i].Release? ==> log[j].socket != log[i].socket)
    && (forall i, j :: 0 <= i < j < |log| && log[i].CloseNotice? ==>
          log[j].Release? || log[j].socket != log[i].socket)
  }

  ghost predicate Inv<S>(t: Sockets<S>) {
    && t.useable !! t.closing
    && (t.running ==> t.queue != [])
    && (forall d :: d in Log(t) ==> d.socket in t.useable + t.closing)
    && (forall s :: s in t.useable ==> Release(s) !in Log(t) && CloseNotice(s) !in Log(t))
    && (forall s :: s in t.closing ==> Release(s) in Log(t))
    && Orderly(Log(t))
  }

  // ----- the invariant -----

  lemma AppendLog<S>(t: Sockets<S>, d: Dispatch<S>)
    requires t.running ==> t.queue != []
    ensures Log(Append(t, d)) == Log(t) + [d]
  {
    if t.running {
      assert (t.queue + [d])[1..] == t.queue[1..] + [d];
    }
  }

  lemma OrderlyAppend<S>(log: seq<Dispatch<S>>, d: Dispatch<S>)
    requires Orderly(log) && Release(d.socket) !in log
    requires CloseNotice(d.socket) in log ==> d.Release?
    ensures Orderly(log + [d])
  {
    var longer := log + [d];
    forall i, j | 0 <= i < j < |longer| && longer[i].Release?
      ensures longer[j].socket != longer[i].socket
    {
      assert longer[i] == log[i] && longer[i] == Release(log[i].socket);
    }
    forall i, j | 0 <= i < j < |longer| && longer[i].CloseNotice?
      ensures longer[j].Release? || longer[j].socket != longer[i].socket
    {
      assert longer[i] == log[i] && longer[i] == CloseNotice(log[i].socket);
    }
  }

  lemma CloseLog<S>(t: Sockets<S>, s: S, notify: bool)
    requires (t.running ==> t.queue != []) && s !in t.closing
    ensures Log(Close(t, s, notify)) == Log(t) + (if notify then [CloseNotice(s)] else []) + [Release(s)]
  {
    var shut := t.(closing := t.closing + {s}, useable := t.useable - {s});
    assert Log(shut) == Log(t);
    AppendLog(shut, CloseNotice(s));
    AppendLog(if notify then Append(shut, CloseNotice(s)) else shut, Release(s));
  }

  lemma CloseInv<S>(t: Sockets<S>, s: S, notify: bool)
    requires Inv(t) && s in t.useable + t.closing
    ensures Inv(Close(t, s, notify))
  {
    hide Orderly;
    if s !in t.closing {
      CloseLog(t, s, notify);
      if notify {
        OrderlyAppend(Log(t), CloseNotice(s));
        OrderlyAppend(Log(t) + [CloseNotice(s)], Release(s));
      } else {
        OrderlyAppend(Log(t), Release(s));
        assert Log(t) + [] == Log(t);
      }
    }
  }

  lemma ArrivalInv<S>(t: Sockets<S>, d: Dispatch<S>)
    requires Inv(t) && d.socket in t.useable && (d.Message? || d.RemoteClosed?)
    ensures Inv(Append(t, d))
  {
    hide Orderly;
    AppendLog(t, d);
    OrderlyAppend(Log(t), d);
  }

  lemma StartedInv<S>(t: Sockets<S>)
    requires Inv(t) && !t.running && t.queue != []
    ensures Inv(Started(t)) && t.queue[0].socket in t.useable + t.closing
    ensures Log(Started(t)) == Log(t)
  {
    hide Orderly;
    assert [t.queue[0]] + t.queue[1..] == t.queue;
    assert Log(Started(t)) == Log(t);
    assert t.queue[0] in Log(t);
  }

  lemma BeginInv<S>(t: Sockets<S>)
    requires Inv(t) && !t.running && t.queue != []
    ensures Inv(Begin(t))
  {
    hide Inv;
    StartedInv(t);
    if t.queue[0].RemoteClosed? {
      CloseInv(Started(t), t.queue[0].socket, true);
    }
  }

  lemma NextInv<S>(t: Sockets<S>, e: Event<S>)
    requires Inv(t) && Possible(t, e)
    ensures Inv(Next(t, e))
  {
    hide Orderly;
    match e
    case Created(s) =>
      assert Log(Next(t, e)) == Log(t);
      assert forall d :: d in Log(t) ==> d.socket != s;
    case MessageArrived(s) =>
      if s in t.useable { ArrivalInv(t, Message(s)); }
    case RemoteCloseArrived(s) =>
      if s in t.useable { ArrivalInv(t, RemoteClosed(s)); }
    case LocallyClosed(s) =>
      if s in t.useable { CloseInv(t, s, true); }
    case TimedOut(s) => CloseInv(t, s, false);
    case Begun => BeginInv(t);
    case Ended => assert Log(Next(t, e)) == Log(t);
  }

  lemma {:induction false} RunInv<S>(t: Sockets<S>, events: seq<Event<S>>)
    requires Inv(t) && IsRun(t, events)
    ensures Inv(After(t, events))
  {
    hide Inv, Next, Possible;
    if events != [] {
      RunInv(t, events[..|events| - 1]);
      NextInv(After(t, events[..|events| - 1]), events[|events| - 1]);
    }
  }

  lemma NoSocketsInv<S>()
    ensures Inv<S>(NoSockets())
  {
  }

  lemma RunSnoc<S>(t: Sockets<S>, events: seq<Event<S>>, e: Event<S>)
    requires IsRun(t, events) && Possible(After(t, events), e)
    ensures IsRun(t, events + [e]) && After(t, events + [e]) == Next(After(t, events), e)
  {
    assert (events + [e])[..|events|] == events;
  }

  function Closings<S>(sockets: seq<S>): seq<Event<S>> {
    if sockets == [] then []
    else Closings(sockets[..|sockets| - 1]) + [LocallyClosed(sockets[|sockets| - 1])]
  }

  /** The events of running n dispatches, the k-th of them calling a script that
      closes the sockets in `script(k)`. */
  function Trace<S>(script: nat -> seq<S>, n: nat): seq<Event<S>> {
    if n == 0 then [] else Trace(script, n - 1) + ([Begun] + Closings(script(n - 1))) + [Ended]
  }

  lemma {:induction false} ClosingsAre<S>(sockets: seq<S>)
    ensures |Closings(sockets)| == |sockets|
    ensures forall i :: 0 <= i < |sockets| ==> Closings(sockets)[i] == LocallyClosed(sockets[i])
  {
    if sockets != [] {
      ClosingsAre(sockets[..|sockets| - 1]);
    }
  }

  /** A trace has the closes of every script it runs. */
  lemma {:induction false} TraceHas<S>(script: nat -> seq<S>, n: nat, k: nat, s: S)
    requires k < n && s in script(k)
    ensures LocallyClosed(s) in Trace(script, n)
  {
    if k + 1 < n {
      TraceHas(script, n - 1, k, s);
    } else {
      ClosingsAre(script(k));
      var i :| 0 <= i < |script(k)| && script(k)[i] == s;
      assert Closings(script(k))[i] in Closings(script(k));
    }
  }

  lemma {:induction false} ClosingsDrain<S>(sockets: seq<S>)
    ensures forall e :: e in Closings(sockets) ==> e.LocallyClosed?
  {
    if sockets != [] {
      ClosingsDrain(sockets[..|sockets| - 1]);
    }
  }

  lemma EmptyRun<S>(t: Sockets<S>)
    ensures IsRun(t, []) && After(t, []) == t
  {
  }

  lemma BeginRun<S>(t: Sockets<S>)
    requires Possible(t, Begun)
    ensures IsRun(t, [Begun]) && After(t, [Begun]) == Begin(t)
  {
    EmptyRun(t);
    RunSnoc(t, [], Begun);
    assert [] + [Event<S>.Begun] == [Begun];
  }

  lemma {:induction false} RunConcat<S>(t: Sockets<S>, events: seq<Event<S>>, more: seq<Event<S>>)
    requires IsRun(t, events) && IsRun(After(t, events), more)
    ensures IsRun(t, events + more) && After(t, events + more) == After(After(t, events), more)
    decreases |more|
  {
    hide Next, Possible;
    if more == [] {
      assert events + more == events;
    } else {
      var before := more[..|more| - 1];
      RunConcat(t, events, before);
      RunSnoc(t, events + before, more[|more| - 1]);
      assert events + before + [more[|more| - 1]] == events + more;
      assert more == before + [more[|more| - 1]];
    }
  }

  // ----- references are used only while they are held -----

  /** The references of a socket are held until its release has begun. */
  ghost predicate Held<S>(t: Sockets<S>, s: S) {
    Release(s) !in t.ran
  }

  lemma HeldWhenBegun<S>(t: Sockets<S>)
    requires Inv(t) && !t.running && t.queue != []
    ensures Held(t, t.queue[0].socket)
  {
    var n := |t.ran|;
    assert Log(t)[n] == t.queue[0];
    forall i | 0 <= i < n
      ensures t.ran[i] != Release(t.queue[0].socket)
    {
      assert Log(t)[i] == t.ran[i];
    }
  }

  /** In every run, the references of a socket are held whenever a dispatch of that
      socket is begun, and for as long as scripts may use the socket. */
  lemma RunHolds<S>(events: seq<Event<S>>)
    requires IsRun(NoSockets(), events)
    ensures var t := After(NoSockets(), events);
      && (!t.running && t.queue != [] ==> Held(t, t.queue[0].socket))
      && (forall s :: s in t.useable ==> Held(t, s))
  {
    var t := After(NoSockets(), events);
    NoSocketsInv<S>();
    RunInv(NoSockets(), events);
    if !t.running && t.queue != [] {
      HeldWhenBegun(t);
    }
    assert forall d :: d in t.ran ==> d in Log(t);
  }

  /** In every run, the release and the close notice of a socket are queued at most
      once, the notice before the release, and nothing about it after the release. */
  lemma RunOrder<S>(events: seq<Event<S>>, i: nat, j: nat)
    requires IsRun(NoSockets(), events)
    requires var log := Log(After(NoSockets(), events));
      i < |log| && j < |log| && log[i].socket == log[j].socket
    ensures var log := Log(After(NoSockets(), events));
      && (log[i].Release? ==> j <= i)
      && (log[i].CloseNotice? ==> j <= i || log[j].Release?)
      && (log[i].CloseNotice? && log[j].CloseNotice? ==> i == j)
  {
    NoSocketsInv<S>();
    RunInv(NoSockets(), events);
  }

  // ----- order -----

  lemma NextLog<S>(t: Sockets<S>, e: Event<S>)
    requires t.running ==> t.queue != []
    ensures Log(t) <= Log(Next(t, e)) && t.ran <= Next(t, e).ran
  {
    match e
    case MessageArrived(s) => AppendLog(t, Message(s));
    case RemoteCloseArrived(s) => AppendLog(t, RemoteClosed(s));
    case LocallyClosed(s) => MayCloseLog(t, s, true);
    case TimedOut(s) => MayCloseLog(t, s, false);
    case Begun =>
      if !t.running && t.queue != [] {
        assert [t.queue[0]] + t.queue[1..] == t.queue;
        assert Log(Started(t)) == Log(t);
        MayCloseLog(Started(t), t.queue[0].socket, true);
      }
    case _ =>
  }

  lemma MayCloseLog<S>(t: Sockets<S>, s: S, notify: bool)
    requires t.running ==> t.queue != []
    ensures Log(t) <= Log(Close(t, s, notify)) && Close(t, s, notify).ran == t.ran
  {
    if s !in t.closing {
      CloseLog(t, s, notify);
    }
  }

  /** Dispatches are begun in the order they are queued, also those that a running
      dispatch queues: the log only grows, and what was begun is its front. */
  lemma {:induction false} RunFifo<S>(t: Sockets<S>, events: seq<Event<S>>, m: nat)
    requires Inv(t) && IsRun(t, events) && m <= |events|
    ensures IsRun(t, events[..m])
    ensures var s, u := After(t, events[..m]), After(t, events);
      Log(s) <= Log(u) && s.ran <= u.ran <= Log(u)
    decreases |events|
  {
    hide Next, Possible, Orderly;
    if m == |events| {
      assert events[..m] == events;
    } else {
      var before := events[..|events| - 1];
      RunFifo(t, before, m);
      assert before[..m] == events[..m];
      RunInv(t, before);
      NextLog(After(t, before), events[|events| - 1]);
    }
  }

  // ----- what the events of a run determine -----

  /** The sockets that an event closes, unless they are closed already: the one a script
      or a time-out closes, or the one whose remote close is begun. */
  ghost function ShutBy<S>(t: Sockets<S>, e: Event<S>): set<S> {
    match e
    case LocallyClosed(s) => {s}
    case TimedOut(s) => {s}
    case Begun => if t.queue != [] && t.queue[0].RemoteClosed? then {t.queue[0].socket} else {}
    case _ => {}
  }

  lemma NextSockets<S>(t: Sockets<S>, e: Event<S>)
    requires Inv(t) && Possible(t, e)
    ensures var u := Next(t, e);
      && u.closing == t.closing + ShutBy(t, e)
      && u.useable + u.closing == t.useable + t.closing + (if e.Created? then {e.socket} else {})
      && (e.Begun? ==> t.queue != [])
      && u.ran == t.ran + (if e.Begun? then [t.queue[0]] else [])
  {
    hide Orderly;
    if e.Begun? {
      assert t.queue[0] in Log(t);
    }
  }

  /** What one event does to one socket; `k` dispatches were begun before the run. */
  lemma NextCloses<S>(t: Sockets<S>, e: Event<S>, s: S, k: nat)
    requires Inv(t) && Possible(t, e) && k <= |t.ran|
    ensures var (u, remote) := (Next(t, e), e.Begun? && t.queue != [] && t.queue[0] == RemoteClosed(s));
      && t.ran <= u.ran
      && (s in u.closing <==> s in t.closing || e == LocallyClosed(s) || e == TimedOut(s) || remote)
      && (RemoteClosed(s) in u.ran[k..] <==> RemoteClosed(s) in t.ran[k..] || remote)
      && (s in u.useable + u.closing <==> s in t.useable + t.closing || e == Created(s))
  {
    hide Next, Possible, Inv;
    NextSockets(t, e);
    if e.Begun? {
      assert (t.ran + [t.queue[0]])[k..] == t.ran[k..] + [t.queue[0]];
    } else {
      assert t.ran + [] == t.ran;
    }
  }

  lemma InSnoc<T>(s: seq<T>, x: T)
    requires s != []
    ensures x in s <==> x in s[..|s| - 1] || x == s[|s| - 1]
  {
    assert s == s[..|s| - 1] + [s[|s| - 1]];
  }

  /** From any state: a socket is closed in the end if and only if it was, or a script or
      a time-out closed it, or a remote close of it was begun; it is known if and only if
      it was, or was created. */
  lemma {:induction false} RunCloses<S>(t: Sockets<S>, events: seq<Event<S>>, s: S)
    requires Inv(t) && IsRun(t, events)
    ensures var u := After(t, events);
      && t.ran <= u.ran
      && (s in u.closing <==> s in t.closing || LocallyClosed(s) in events || TimedOut(s) in events
                              || RemoteClosed(s) in u.ran[|t.ran|..])
      && (s in u.useable + u.closing <==> s in t.useable + t.closing || Created(s) in events)
  {
    hide Next, Possible, Inv;
    if events != [] {
      var before := events[..|events| - 1];
      RunCloses(t, before, s);
      RunInv(t, before);
      NextCloses(After(t, before), events[|events| - 1], s, |t.ran|);
      InSnoc(events, LocallyClosed(s));
      InSnoc(events, TimedOut(s));
      InSnoc(events, Created(s));
    }
  }

  /** In every run, a socket is closed if and only if a script or a time-out closed it or
      a remote close of it was begun, and useable if and only if it was created and is not
      closed. */
  lemma ClosedExactly<S>(events: seq<Event<S>>, s: S)
    requires IsRun(NoSockets(), events)
    ensures var t := After(NoSockets(), events);
      && (s in t.closing <==> LocallyClosed(s) in events || TimedOut(s) in events || RemoteClosed(s) in t.ran)
      && (s in t.useable <==> Created(s) in events && s !in t.closing)
  {
    hide IsRun, After;
    NoSocketsInv<S>();
    RunCloses(NoSockets(), events, s);
    RunInv(NoSockets(), events);
    var t := After(NoSockets(), events);
    assert t.ran[0..] == t.ran;
  }

  /** The messages and remote closes that arrived at useable sockets, in order. */
  ghost function Arrivals<S>(events: seq<Event<S>>): seq<Dispatch<S>> {
    if events == [] then []
    else
      var before, last := events[..|events| - 1], events[|events| - 1];
      var useable := After(NoSockets(), before).useable;
      Arrivals(before)
      + match last
        case MessageArrived(s) => if s in useable then [Message(s)] else []
        case RemoteCloseArrived(s) => if s in useable then [RemoteClosed(s)] else []
        case _ => []
  }

  /** The messages and remote closes in a log. */
  ghost function Incoming<S>(log: seq<Dispatch<S>>): seq<Dispatch<S>> {
    if log == [] then []
    else
      var last := log[|log| - 1];
      Incoming(log[..|log| - 1]) + if last.Message? || last.RemoteClosed? then [last] else []
  }

  lemma IncomingSnoc<S>(log: seq<Dispatch<S>>, d: Dispatch<S>)
    ensures Incoming(log + [d]) == Incoming(log) + if d.Message? || d.RemoteClosed? then [d] else []
  {
    assert (log + [d])[..|log|] == log;
  }

  lemma CloseIncoming<S>(t: Sockets<S>, s: S, notify: bool)
    requires t.running ==> t.queue != []
    ensures Incoming(Log(Close(t, s, notify))) == Incoming(Log(t))
  {
    hide Close, Log;
    if s in t.closing {
      AlreadyClosed(t, s, notify);
    } else {
      CloseLog(t, s, notify);
      if notify {
        IncomingSnoc(Log(t), CloseNotice(s));
        IncomingSnoc(Log(t) + [CloseNotice(s)], Release(s));
      } else {
        assert Log(t) + [] == Log(t);
        IncomingSnoc(Log(t), Release(s));
      }
    }
  }

  lemma AlreadyClosed<S>(t: Sockets<S>, s: S, notify: bool)
    requires s in t.closing
    ensures Close(t, s, notify) == t
  {
  }

  lemma NextIncoming<S>(t: Sockets<S>, e: Event<S>)
    requires Inv(t) && Possible(t, e)
    ensures Incoming(Log(Next(t, e))) == Incoming(Log(t))
      + match e
        case MessageArrived(s) => if s in t.useable then [Message(s)] else []
        case RemoteCloseArrived(s) => if s in t.useable then [RemoteClosed(s)] else []
        case _ => []
  {
    hide Incoming, Close, Orderly;
    match e
    case MessageArrived(s) =>
      AppendLog(t, Message(s));
      IncomingSnoc(Log(t), Message(s));
    case RemoteCloseArrived(s) =>
      AppendLog(t, RemoteClosed(s));
      IncomingSnoc(Log(t), RemoteClosed(s));
    case LocallyClosed(s) => CloseIncoming(t, s, true);
    case TimedOut(s) => CloseIncoming(t, s, false);
    case Begun =>
      StartedInv(t);
      CloseIncoming(Started(t), t.queue[0].socket, true);
    case _ => assert Log(Next(t, e)) == Log(t);
  }

  /** In every run, what is queued besides notices and releases is exactly what arrived
      at sockets that were useable then, in the order of arrival. */
  lemma {:induction false} ArrivalsLogged<S>(events: seq<Event<S>>)
    requires IsRun(NoSockets(), events)
    ensures Incoming(Log(After(NoSockets(), events))) == Arrivals(events)
  {
    hide Next, Possible, Inv, Log;
    if events == [] {
      NothingLogged<S>();
    } else {
      var n := |events| - 1;
      ArrivalsLogged(events[..n]);
      NoSocketsInv<S>();
      RunInv(NoSockets(), events[..n]);
      NextIncoming(After(NoSockets(), events[..n]), events[n]);
    }
  }

  lemma NothingLogged<S>()
    ensures Incoming(Log<S>(NoSockets())) == []
  {
  }

  // ----- notices -----

  /** The connection timed out before the socket was closed otherwise. */
  ghost predicate TimedOutFirst<S>(events: seq<Event<S>>, s: S) {
    exists m :: 0 <= m < |events| && events[m] == TimedOut(s) && s in After(NoSockets(), events[..m]).useable
  }

  lemma NotTimedOutBefore<S>(events: seq<Event<S>>, s: S)
    requires events != [] && !TimedOutFirst(events, s)
    ensures var before := events[..|events| - 1];
      && !TimedOutFirst(before, s)
      && (events[|events| - 1] == TimedOut(s) ==> s !in After(NoSockets(), before).useable)
  {
    hide After;
    var before := events[..|events| - 1];
    forall m | 0 <= m < |before| && before[m] == TimedOut(s)
      ensures s !in After(NoSockets(), before[..m]).useable
    {
      assert before[..m] == events[..m];
    }
  }

  lemma {:induction false} NoticeQueued<S>(events: seq<Event<S>>, s: S)
    requires IsRun(NoSockets(), events) && !TimedOutFirst(events, s)
    ensures var t := After(NoSockets(), events);
      s in t.closing ==> CloseNotice(s) in Log(t)
  {
    hide Inv, Possible, TimedOutFirst;
    if events != [] {
      var before := events[..|events| - 1];
      var t, e := After(NoSockets(), before), events[|events| - 1];
      NotTimedOutBefore(events, s);
      NoticeQueued(before, s);
      NoSocketsInv<S>();
      RunInv(NoSockets(), before);
      NoticeKept(t, e, s);
    }
  }

  lemma NoticeKept<S>(t: Sockets<S>, e: Event<S>, s: S)
    requires Inv(t) && Possible(t, e) && (e == TimedOut(s) ==> s !in t.useable)
    requires s in t.closing ==> CloseNotice(s) in Log(t)
    ensures s in Next(t, e).closing ==> CloseNotice(s) in Log(Next(t, e))
  {
    hide Orderly;
    NextLog(t, e);
    if s !in t.closing {
      match e
      case LocallyClosed(r) =>
        if r in t.useable { CloseLog(t, r, true); }
      case Begun =>
        var d := t.queue[0];
        if d.RemoteClosed? && d.socket !in t.closing { CloseLog(Started(t), d.socket, true); }
      case _ =>
    }
  }

  lemma NoNoticeAfter<S>(early: seq<Dispatch<S>>, late: seq<Dispatch<S>>, s: S)
    requires early + [Release(s)] <= late && Orderly(late) && CloseNotice(s) !in early
    ensures CloseNotice(s) !in late
  {
    var n := |early|;
    assert late[n] == (early + [Release(s)])[n];
    forall i | 0 <= i < |late|
      ensures late[i] != CloseNotice(s)
    {
      if i < n {
        assert late[i] == (early + [Release(s)])[i] == early[i];
      }
    }
  }

  /** A socket that times out while it is useable is closed for good without one. */
  lemma NoticeOmitted<S>(events: seq<Event<S>>, m: nat, s: S)
    requires IsRun(NoSockets(), events) && m < |events| && events[m] == TimedOut(s)
    requires s in After(NoSockets(), events[..m]).useable
    ensures CloseNotice(s) !in Log(After(NoSockets(), events))
  {
    hide Orderly, IsRun, Possible, Log;
    var t, u := After(NoSockets(), events[..m]), After(NoSockets(), events);
    NoSocketsInv<S>();
    RunFifo(NoSockets(), events, m);
    RunFifo(NoSockets(), events, m + 1);
    RunInv(NoSockets(), events[..m]);
    RunInv(NoSockets(), events);
    assert events[..m + 1][..m] == events[..m];
    CloseLog(t, s, false);
    assert Log(t) + [] == Log(t);
    assert Log(After(NoSockets(), events[..m + 1])) == Log(t) + [Release(s)];
    NoNoticeAfter(Log(t), Log(u), s);
  }

  /** A closed socket has a close notice if and only if its connection did not time
      out before it was closed otherwise. */
  lemma NoticeExactly<S>(events: seq<Event<S>>, s: S)
    requires IsRun(NoSockets(), events) && s in After(NoSockets(), events).closing
    ensures CloseNotice(s) in Log(After(NoSockets(), events)) <==> !TimedOutFirst(events, s)
  {
    hide IsRun, Log, After;
    if TimedOutFirst(events, s) {
      var m :| 0 <= m < |events| && events[m] == TimedOut(s) && s in After(NoSockets(), events[..m]).useable;
      NoticeOmitted(events, m, s);
    } else {
      NoticeQueued(events, s);
    }
  }

  /** Once the queue is empty, every closed socket has been released, and every
      dispatch ever queued has been begun. */
  lemma Drained<S>(t: Sockets<S>)
    requires Inv(t) && t.queue == []
    ensures t.ran == Log(t)
    ensures forall s :: s in t.closing <==> Release(s) in t.ran
  {
    assert t.ran + [] == t.ran;
  }

  // ----- the queue drains -----

  /** What dispatches and the scripts they call can do themselves. */
  predicate Draining<S>(e: Event<S>) {
    e.LocallyClosed? || e.TimedOut? || e.Begun? || e.Ended?
  }

  function Measure<S>(t: Sockets<S>): nat {
    |t.queue| + 2 * |t.useable|
  }

  function CountEnded<S>(events: seq<Event<S>>): nat {
    if events == [] then 0
    else CountEnded(events[..|events| - 1]) + if events[|events| - 1].Ended? then 1 else 0
  }

  lemma CloseMeasure<S>(t: Sockets<S>, s: S, notify: bool)
    requires s in t.useable + t.closing
    ensures Measure(Close(t, s, notify)) <= Measure(t)
  {
    if s in t.useable {
      assert |t.useable - {s}| == |t.useable| - 1;
    }
  }

  lemma DrainStep<S>(t: Sockets<S>, e: Event<S>)
    requires Inv(t) && Possible(t, e) && Draining(e)
    ensures Measure(Next(t, e)) + (if e.Ended? then 1 else 0) <= Measure(t)
  {
    hide Orderly;
    match e
    case LocallyClosed(s) => CloseMeasure(t, s, true);
    case TimedOut(s) => CloseMeasure(t, s, false);
    case Begun =>
      assert t.queue[0] in Log(t);
      CloseMeasure(Started(t), t.queue[0].socket, true);
    case Ended =>
  }

  /** From any state, with nothing arriving from outside, no more than
      |queue| + 2 |useable| dispatches can be run: the loop over the queue ends
      although the dispatches it runs append to the queue. */
  lemma {:induction false} DrainBound<S>(t: Sockets<S>, events: seq<Event<S>>)
    requires Inv(t) && IsRun(t, events) && forall e :: e in events ==> Draining(e)
    ensures CountEnded(events) + Measure(After(t, events)) <= Measure(t)
  {
    hide Inv, Possible, Next, Measure;
    if events != [] {
      var before := events[..|events| - 1];
      DrainBound(t, before);
      RunInv(t, before);
      assert events[|events| - 1] in events;
      DrainStep(After(t, before), events[|events| - 1]);
    }
  }
}
