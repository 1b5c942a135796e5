/** Websocket objects, the list of dispatches of the task scheduler, and the loop of a
    scheduler step that runs them. */
module Websockets {
  import opened Dispatches

  /** What the connection reports to the message callback. */
  datatype Report = Text | Failure(reason: string) | Closed | Other

  class Websocket {
    var isUseable: bool
    var isClosing: bool
    var lastWebsocketErrorMessage: string

    constructor ()
      ensures isUseable && !isClosing && lastWebsocketErrorMessage == ""
    {
      isUseable, isClosing, lastWebsocketErrorMessage := true, false, "";
    }
  }

  class Dispatcher {
    var synchronizedCodeDispatch: seq<Dispatch<Websocket>>

    ghost var created: set<Websocket>
    ghost var running: bool
    ghost var ran: seq<Dispatch<Websocket>>

    ghost function View(): Sockets<Websocket>
      reads this, created
    {
      Sockets((set w | w in created && w.isUseable), (set w | w in created && w.isClosing),
              synchronizedCodeDispatch, running, ran)
    }

    ghost predicate Valid()
      reads this, created
    {
      Inv(View()) && forall w :: w in created ==> w.isUseable != w.isClosing
    }

    constructor ()
      ensures Valid() && View() == NoSockets() && created == {}
    {
      synchronizedCodeDispatch, created, running, ran := [], {}, false, [];
    }

    method ScheduleLuaDispatch(d: Dispatch<Websocket>)
      modifies `synchronizedCodeDispatch
      ensures View() == Append(old(View()), d)
    {
      synchronizedCodeDispatch := synchronizedCodeDispatch + [d];
    }

    method CreateNewWebsocket() returns (w: Websocket)
      requires Valid()
      modifies `created
      ensures Valid() && fresh(w) && created == old(created) + {w}
      ensures View() == Next(old(View()), Created(w))
    {
      hide Inv;
      ghost var t := View();
      w := new Websocket();
      created := created + {w};
      assert View().useable == t.useable + {w} && View().closing == t.closing;
      NextInv(t, Created(w));
    }

    /** The message callback of a connection, on a thread of its own. */
    method OnMessage(w: Websocket, report: Report)
      requires Valid() && w in created
      modifies `synchronizedCodeDispatch, w`lastWebsocketErrorMessage
      ensures Valid()
      ensures View() == match report
                        case Text => Next(old(View()), MessageArrived(w))
                        case Closed => Next(old(View()), RemoteCloseArrived(w))
                        case _ => old(View())
      ensures w.lastWebsocketErrorMessage
           == if report.Failure? && w.isUseable then report.reason else old(w.lastWebsocketErrorMessage)
    {
      hide Inv;
      ghost var t := View();
      if !w.isUseable {
        return;
      }
      if report.Text? {
        ScheduleLuaDispatch(Message(w));
        NextInv(t, MessageArrived(w));
      }
      match report {
        case Failure(reason) =>
          w.lastWebsocketErrorMessage := reason;
          assert View().useable == t.useable && View().closing == t.closing;
        case Closed =>
          ScheduleLuaDispatch(RemoteClosed(w));
          NextInv(t, RemoteCloseArrived(w));
        case _ =>
      }
    }

    method CloseWebsocketInstance(w: Websocket, fireClosedConnection: bool)
      requires Valid() && w in created
      modifies `synchronizedCodeDispatch, w`isClosing, w`isUseable
      ensures Valid() && View() == Close(old(View()), w, fireClosedConnection)
    {
      hide Inv;
      ghost var t := View();
      if w.isClosing {
        return;
      }
      w.isClosing := true;
      w.isUseable := false;
      assert View().closing == t.closing + {w} && View().useable == t.useable - {w};
      if fireClosedConnection {
        ScheduleLuaDispatch(CloseNotice(w));
      }
      ScheduleLuaDispatch(Release(w));
      CloseInv(t, w, fireClosedConnection);
    }

    /** The Close method that scripts see. */
    method IndexClose(w: Websocket)
      requires Valid() && w in created
      modifies `synchronizedCodeDispatch, w`isClosing, w`isUseable
      ensures Valid() && View() == Next(old(View()), LocallyClosed(w))
    {
      if !w.isUseable {
        return;
      }
      CloseWebsocketInstance(w, true);
    }

    /** Run the dispatch at the head of the list; the script it calls, if any, closes
        the sockets in `closes`. */
    method RunHead(closes: seq<Websocket>)
      requires Valid() && !running && synchronizedCodeDispatch != []
      requires forall w :: w in closes ==> w in created
      modifies `synchronizedCodeDispatch, `running, `ran, created
      ensures Valid() && running && synchronizedCodeDispatch != []
      ensures var events := [Begun] + Closings(closes);
        IsRun(old(View()), events) && View() == After(old(View()), events)
    {
      hide Inv, After, IsRun;
      ghost var t := View();
      var currentDispatch := synchronizedCodeDispatch[0];
      StartedInv(t);
      running, ran := true, ran + [currentDispatch];
      assert View() == Started(t);
      if currentDispatch.RemoteClosed? {
        if !currentDispatch.socket.isClosing {
          CloseWebsocketInstance(currentDispatch.socket, true);
        }
      }
      BeginRun(t);
      assert [Event<Websocket>.Begun] + Closings(closes[..0]) == [Begun];
      for i := 0 to |closes|
        invariant Valid() && running && synchronizedCodeDispatch != []
        invariant IsRun(t, [Begun] + Closings(closes[..i])) && View() == After(t, [Begun] + Closings(closes[..i]))
      {
        ghost var events := [Begun] + Closings(closes[..i]);
        RunSnoc(t, events, LocallyClosed(closes[i]));
        IndexClose(closes[i]);
        assert closes[..i + 1][..i] == closes[..i];
        assert events + [LocallyClosed(closes[i])] == [Begun] + Closings(closes[..i + 1]);
      }
      assert closes[..|closes|] == closes;
    }

    /** The last loop of a step: run the dispatches until the list is empty.  The
        script called by the k-th of them closes the sockets in `script(k)`. */
    method RunDispatches(script: nat -> seq<Websocket>) returns (ghost n: nat)
      requires Valid() && !running
      requires forall k, w :: w in script(k) ==> w in created
      modifies `synchronizedCodeDispatch, `running, `ran, created
      ensures Valid() && !running && synchronizedCodeDispatch == []
      ensures IsRun(old(View()), Trace(script, n)) && View() == After(old(View()), Trace(script, n))
      ensures n <= Measure(old(View()))
      // what waited was begun, in order; what was closed remotely or by a script is closed
      ensures old(ran) + old(synchronizedCodeDispatch) <= ran
      ensures forall w :: w in created && RemoteClosed(w) in ran[|old(ran)|..] ==> w.isClosing && Release(w) in ran
      ensures forall k, w :: 0 <= k < n && w in script(k) ==> w.isClosing && Release(w) in ran
    {
      hide Inv, Close, After, IsRun, Measure;
      ghost var t := View();
      EmptyRun(t);
      var k := 0;
      while synchronizedCodeDispatch != []
        invariant Valid() && !running
        invariant IsRun(t, Trace(script, k)) && View() == After(t, Trace(script, k))
        invariant k + Measure(View()) <= Measure(t)
        decreases Measure(View())
      {
        ghost var s := View();
        RunHead(script(k));
        ghost var u := View();
        running := false;
        synchronizedCodeDispatch := synchronizedCodeDispatch[1..];
        assert View() == Next(u, Ended);
        NextInv(u, Ended);
        DispatchRun(t, s, u, script, k);
        k := k + 1;
      }
      n := k;
      DispatchesRun(t, View(), script, n, created);
      assert forall w :: w in View().closing ==> w.isClosing;
    }
  }

  /** What a complete run of the loop has done. */
  lemma DispatchesRun(t: Sockets<Websocket>, u: Sockets<Websocket>, script: nat -> seq<Websocket>, n: nat,
                      created: set<Websocket>)
    requires Inv(t) && !t.running && IsRun(t, Trace(script, n)) && u == After(t, Trace(script, n))
    requires u.queue == []
    ensures t.ran + t.queue <= u.ran
    ensures forall w :: w in created && RemoteClosed(w) in u.ran[|t.ran|..] ==> w in u.closing && Release(w) in u.ran
    ensures forall k, w :: 0 <= k < n && w in script(k) ==> w in u.closing && Release(w) in u.ran
  {
    hide Inv, After, IsRun, Trace;
    var events := Trace(script, n);
    RunInv(t, events);
    Drained(u);
    RunFifo(t, events, 0);
    EmptyRun(t);
    assert events[..0] == [];
    LogAtRest(t);
    forall w | w in created && RemoteClosed(w) in u.ran[|t.ran|..]
      ensures w in u.closing
    {
      RunCloses(t, events, w);
    }
    forall k, w | 0 <= k < n && w in script(k)
      ensures w in u.closing
    {
      TraceHas(script, n, k, w);
      RunCloses(t, events, w);
    }
  }

  lemma LogAtRest(t: Sockets<Websocket>)
    requires !t.running
    ensures Log(t) == t.ran + t.queue
  {
  }

  /** One more dispatch of a trace. */
  lemma DispatchRun(t: Sockets<Websocket>, s: Sockets<Websocket>, u: Sockets<Websocket>,
                    script: nat -> seq<Websocket>, k: nat)
    requires IsRun(t, Trace(script, k)) && s == After(t, Trace(script, k))
    requires var events := [Begun] + Closings(script(k));
      Inv(s) && IsRun(s, events) && u == After(s, events)
    requires u.running
    ensures IsRun(t, Trace(script, k + 1)) && Next(u, Ended) == After(t, Trace(script, k + 1))
    ensures Measure(Next(u, Ended)) + 1 <= Measure(s)
  {
    hide Inv, After, IsRun, Next, Measure;
    var events := [Begun] + Closings(script(k));
    ClosingsDrain(script(k));
    RunInv(s, events);
    DrainBound(s, events);
    DrainStep(u, Ended);
    RunConcat(t, Trace(script, k), events);
    RunSnoc(t, Trace(script, k) + events, Ended);
  }
}
