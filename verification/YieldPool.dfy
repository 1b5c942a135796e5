/** The pool of yielding requests, as a value.

    Requests are scheduled, started by a bounded number of workers in the order
    they were scheduled, become ready, and are completed by the next step of the
    scheduler. */
module YieldPool {

  const MAX_YIELD_THREADS := 3

  /** `scheduled` is the history of all requests; the first `started` of them have
      been started, the others are queued.  `active` is the list of requests not
      completed yet, `ready` holds the outcome of those that are ready. */
  datatype Pool<R(==)> = Pool(scheduled: seq<R>, started: nat, running: set<R>, active: seq<R>,
                              ready: map<R, bool>, completed: seq<(R, bool)>)

  function Fresh<R>(): Pool<R> {
    Pool([], 0, {}, [], map[], [])
  }

  // ----- steps -----

  function StartNext<R(==)>(s: Pool<R>): Pool<R> {
    if s.started < |s.scheduled| then
      s.(started := s.started + 1, running := s.running + {s.scheduled[s.started]})
    else s
  }

  /** Start the oldest queued request if a worker is available. */
  function Fill<R(==)>(s: Pool<R>): Pool<R> {
    if |s.running| < MAX_YIELD_THREADS then StartNext(s) else s
  }

  function Schedule<R(==)>(s: Pool<R>, r: R): Pool<R> {
    Fill(s.(scheduled := s.scheduled + [r], active := s.active + [r]))
  }

  function Finish<R(==)>(s: Pool<R>, r: R): Pool<R> {
    Fill(s.(running := s.running - {r}))
  }

  function MakeReady<R(==)>(s: Pool<R>, r: R, success: bool): Pool<R> {
    s.(ready := s.ready[r := success])
  }

  function Waiting<R(==)>(list: seq<R>, ready: map<R, bool>): seq<R> {
    if list == [] then []
    else (if list[0] in ready then [] else [list[0]]) + Waiting(list[1..], ready)
  }

  function Outcomes<R(==)>(list: seq<R>, ready: map<R, bool>): seq<(R, bool)> {
    if list == [] then []
    else (if list[0] in ready then [(list[0], ready[list[0]])] else []) + Outcomes(list[1..], ready)
  }

  /** Complete all ready requests, in list order; the others keep their order. */
  function Resume<R(==)>(s: Pool<R>): Pool<R> {
    s.(active := Waiting(s.active, s.ready), completed := s.completed + Outcomes(s.active, s.ready))
  }

  // ----- runs -----

  datatype Event<R> = Scheduled(r: R) | Finished(r: R) | Readied(r: R, success: bool) | Stepped

  function Requests<R>(done: seq<(R, bool)>): (s: seq<R>)
    ensures |s| == |done| && forall i :: 0 <= i < |done| ==> s[i] == done[i].0
  {
    seq(|done|, i requires 0 <= i < |done| => done[i].0)
  }

  /** Requests are new objects, only running workers finish, and only a started
      request that is not completed becomes ready. */
  ghost predicate Possible<R>(s: Pool<R>, e: Event<R>) {
    match e
    case Scheduled(r) => r !in s.scheduled
    case Finished(r) => r in s.running
    case Readied(r, _) => s.started <= |s.scheduled| && r in s.scheduled[..s.started] && r !in Requests(s.completed)
    case Stepped => true
  }

  function Next<R(==)>(s: Pool<R>, e: Event<R>): Pool<R> {
    match e
    case Scheduled(r) => Schedule(s, r)
    case Finished(r) => Finish(s, r)
    case Readied(r, ok) => MakeReady(s, r, ok)
    case Stepped => Resume(s)
  }

  ghost predicate NoDuplicates<R>(s: seq<R>) {
    forall i, j :: 0 <= i < j < |s| ==> s[i] != s[j]
  }

  /** The elements of `all` that are not in `gone`, in order. */
  ghost function Without<R>(all: seq<R>, gone: seq<R>): seq<R> {
    if all == [] then []
    else (if all[0] in gone then [] else [all[0]]) + Without(all[1..], gone)
  }

  ghost predicate Inv<R>(s: Pool<R>) {
    && NoDuplicates(s.scheduled) && s.started <= |s.scheduled|
    // a worker runs a started request; no more workers than allowed
    && (forall r :: r in s.running ==> r in s.scheduled[..s.started])
    && |s.running| <= MAX_YIELD_THREADS
    // work-conserving: a request waits only if all workers are busy
    && (s.started < |s.scheduled| ==> |s.running| == MAX_YIELD_THREADS)
    // only started requests are ready, only ready ones are completed, and once
    && (forall r :: r in s.ready ==> r in s.scheduled[..s.started])
    && (forall i :: 0 <= i < |s.completed| ==>
          s.completed[i].0 in s.ready && s.completed[i].1 == s.ready[s.completed[i].0])
    && NoDuplicates(Requests(s.completed))
    // the active list holds the others, in the order of scheduling
    && s.active == Without(s.scheduled, Requests(s.completed))
  }

  // ----- lists -----

  lemma {:induction false} WithoutSnoc<R>(all: seq<R>, gone: seq<R>, r: R)
    ensures Without(all + [r], gone) == Without(all, gone) + (if r in gone then [] else [r])
  {
    if all == [] {
      assert all + [r] == [r];
    } else {
      assert (all + [r])[1..] == all[1..] + [r];
      WithoutSnoc(all[1..], gone, r);
    }
  }

  lemma {:induction false} WithoutMembers<R>(all: seq<R>, gone: seq<R>, r: R)
    ensures r in Without(all, gone) <==> r in all && r !in gone
  {
    if all != [] {
      WithoutMembers(all[1..], gone, r);
      assert r in all <==> r == all[0] || r in all[1..];
    }
  }

  lemma {:induction false} WithoutDistinct<R>(all: seq<R>, gone: seq<R>)
    requires NoDuplicates(all)
    ensures NoDuplicates(Without(all, gone))
  {
    if all != [] {
      WithoutDistinct(all[1..], gone);
      WithoutMembers(all[1..], gone, all[0]);
    }
  }

  lemma {:induction false} OutcomeMembers<R>(list: seq<R>, ready: map<R, bool>, r: R)
    ensures r in Requests(Outcomes(list, ready)) <==> r in list && r in ready
  {
    if list != [] {
      OutcomeMembers(list[1..], ready, r);
      var head := if list[0] in ready then [(list[0], ready[list[0]])] else [];
      RequestsConcat(head, Outcomes(list[1..], ready));
      assert Requests(head) == if list[0] in ready then [list[0]] else [];
      assert r in list <==> r == list[0] || r in list[1..];
    }
  }

  lemma RequestsConcat<R>(a: seq<(R, bool)>, b: seq<(R, bool)>)
    ensures Requests(a + b) == Requests(a) + Requests(b)
  {
  }

  lemma {:induction false} OutcomesDistinct<R>(list: seq<R>, ready: map<R, bool>)
    requires NoDuplicates(list)
    ensures NoDuplicates(Requests(Outcomes(list, ready)))
    ensures forall i :: 0 <= i < |Outcomes(list, ready)| ==>
      var o := Outcomes(list, ready)[i]; o.0 in ready && o.1 == ready[o.0]
  {
    if list != [] {
      OutcomesDistinct(list[1..], ready);
      OutcomeMembers(list[1..], ready, list[0]);
      var head := if list[0] in ready then [(list[0], ready[list[0]])] else [];
      RequestsConcat(head, Outcomes(list[1..], ready));
    }
  }

  lemma {:induction false} WaitingIsWithout<R>(all: seq<R>, gone: seq<R>, ready: map<R, bool>, gone': seq<R>)
    requires forall r :: r in all ==> (r in gone' <==> r in gone || r in ready)
    ensures Waiting(Without(all, gone), ready) == Without(all, gone')
  {
    if all != [] {
      var rest := Without(all[1..], gone);
      assert all[0] in all && forall r :: r in all[1..] ==> r in all;
      WaitingIsWithout(all[1..], gone, ready, gone');
      if all[0] !in gone {
        assert Without(all, gone) == [all[0]] + rest;
        assert ([all[0]] + rest)[1..] == rest;
      } else {
        assert Without(all, gone) == rest;
      }
    }
  }

  lemma {:induction false} Cardinality<R>(s: seq<R>)
    requires NoDuplicates(s)
    ensures |set r | r in s| == |s|
  {
    if s != [] {
      Cardinality(s[1..]);
      assert (set r | r in s) == {s[0]} + (set r | r in s[1..]);
    }
  }

  // ----- the invariant -----

  lemma FreshInv<R>()
    ensures Inv<R>(Fresh())
  {
  }

  /** All of the invariant but work conservation. */
  ghost predicate Ordered<R>(s: Pool<R>) {
    && NoDuplicates(s.scheduled) && s.started <= |s.scheduled|
    && (forall r :: r in s.running ==> r in s.scheduled[..s.started])
    && |s.running| <= MAX_YIELD_THREADS
    && (forall r :: r in s.ready ==> r in s.scheduled[..s.started])
    && (forall i :: 0 <= i < |s.completed| ==>
          s.completed[i].0 in s.ready && s.completed[i].1 == s.ready[s.completed[i].0])
    && NoDuplicates(Requests(s.completed))
    && s.active == Without(s.scheduled, Requests(s.completed))
  }

  /** Filling restores work conservation when it is off by at most one request. */
  lemma FillInv<R>(s: Pool<R>)
    requires Ordered(s)
    requires s.started + 1 < |s.scheduled| ==> MAX_YIELD_THREADS - 1 <= |s.running|
    ensures Inv(Fill(s))
  {
    if |s.running| < MAX_YIELD_THREADS && s.started < |s.scheduled| {
      var r := s.scheduled[s.started];
      assert s.scheduled[..s.started + 1] == s.scheduled[..s.started] + [r];
      assert r !in s.scheduled[..s.started];
      assert |s.running + {r}| == |s.running| + 1;
    }
  }

  lemma CompletedScheduled<R>(s: Pool<R>)
    requires Inv(s)
    ensures forall r :: r in Requests(s.completed) ==> r in s.ready && r in s.scheduled
  {
    forall i | 0 <= i < |s.completed|
      ensures Requests(s.completed)[i] in s.ready && Requests(s.completed)[i] in s.scheduled
    {
      assert s.completed[i].0 in s.scheduled[..s.started];
    }
  }

  lemma ScheduleInv<R>(s: Pool<R>, r: R)
    requires Inv(s) && r !in s.scheduled
    ensures Inv(Schedule(s, r))
  {
    var done := Requests(s.completed);
    CompletedScheduled(s);
    WithoutSnoc(s.scheduled, done, r);
    assert (s.scheduled + [r])[..s.started] == s.scheduled[..s.started];
    FillInv(s.(scheduled := s.scheduled + [r], active := s.active + [r]));
  }

  lemma FinishInv<R>(s: Pool<R>, r: R)
    requires Inv(s) && r in s.running
    ensures Inv(Finish(s, r))
  {
    assert |s.running - {r}| == |s.running| - 1;
    FillInv(s.(running := s.running - {r}));
  }

  lemma ReadyInv<R>(s: Pool<R>, r: R, success: bool)
    requires Inv(s) && r in s.scheduled[..s.started] && r !in Requests(s.completed)
    ensures Inv(MakeReady(s, r, success))
  {
    forall i | 0 <= i < |s.completed|
      ensures s.completed[i].0 != r
    {
      assert Requests(s.completed)[i] == s.completed[i].0;
    }
  }

  lemma ResumeInv<R>(s: Pool<R>)
    requires Inv(s)
    ensures Inv(Resume(s))
    ensures forall r :: r in Resume(s).active ==> r !in s.ready
  {
    var done, new_ := Requests(s.completed), Outcomes(s.active, s.ready);
    RequestsConcat(s.completed, new_);
    WithoutDistinct(s.scheduled, done);
    OutcomesDistinct(s.active, s.ready);
    forall r
      ensures r in Requests(new_) <==> r in s.scheduled && r !in done && r in s.ready
    {
      OutcomeMembers(s.active, s.ready, r);
      WithoutMembers(s.scheduled, done, r);
    }
    assert Requests(s.completed + new_) == done + Requests(new_);
    DistinctConcat(done, Requests(new_));
    WaitingIsWithout(s.scheduled, done, s.ready, done + Requests(new_));
    forall r | r in Resume(s).active
      ensures r !in s.ready
    {
      WithoutMembers(s.scheduled, done + Requests(new_), r);
    }
  }

  lemma DistinctConcat<R>(a: seq<R>, b: seq<R>)
    requires NoDuplicates(a) && NoDuplicates(b)
    requires forall r :: r in b ==> r !in a
    ensures NoDuplicates(a + b)
  {
    forall i, j | 0 <= i < j < |a + b|
      ensures (a + b)[i] != (a + b)[j]
    {
      if i < |a| <= j {
        assert b[j - |a|] in b && a[i] in a;
      }
    }
  }

  lemma NextInv<R>(s: Pool<R>, e: Event<R>)
    requires Inv(s) && Possible(s, e)
    ensures Inv(Next(s, e))
  {
    hide Inv;
    match e
    case Scheduled(r) => ScheduleInv(s, r);
    case Finished(r) => FinishInv(s, r);
    case Readied(r, ok) => ReadyInv(s, r, ok);
    case Stepped => ResumeInv(s);
  }

  // ----- sessions -----

  /** A session: any possible events, in any order, from an empty pool. */
  ghost predicate IsSession<R>(events: seq<Event<R>>, states: seq<Pool<R>>) {
    && |states| == |events| + 1 && states[0] == Fresh()
    && (forall i {:trigger events[i]} :: 0 <= i < |events| ==>
          Possible(states[i], events[i]) && states[i + 1] == Next(states[i], events[i]))
  }

  lemma {:induction false} SessionInv<R>(events: seq<Event<R>>, states: seq<Pool<R>>, n: nat)
    requires IsSession(events, states) && n <= |events|
    ensures Inv(states[n])
  {
    if n == 0 {
      FreshInv<R>();
    } else {
      SessionInv(events, states, n - 1);
      assert events[n - 1] == events[n - 1];
      NextInv(states[n - 1], events[n - 1]);
    }
  }

  /** The requests started so far, in the order they were started. */
  ghost function StartedRequests<R>(s: Pool<R>): seq<R>
    requires s.started <= |s.scheduled|
  {
    s.scheduled[..s.started]
  }

  /** Requests are started in the order they were scheduled, and what was started
      or completed stays so: no request is started or completed a second time. */
  lemma {:induction false} SessionGrows<R>(events: seq<Event<R>>, states: seq<Pool<R>>, m: nat, n: nat)
    requires IsSession(events, states) && m <= n <= |events|
    ensures states[m].started <= |states[m].scheduled| && states[n].started <= |states[n].scheduled|
    ensures states[m].scheduled <= states[n].scheduled
    ensures StartedRequests(states[m]) <= StartedRequests(states[n])
    ensures states[m].completed <= states[n].completed
    ensures NoDuplicates(StartedRequests(states[n])) && NoDuplicates(Requests(states[n].completed))
    decreases n - m
  {
    hide Next, Possible, Inv;
    SessionInv(events, states, m);
    SessionInv(events, states, n);
    InvOrders(states[m]);
    InvOrders(states[n]);
    if m < n {
      SessionGrows(events, states, m, n - 1);
      assert events[n - 1] == events[n - 1];
      SessionInv(events, states, n - 1);
      NextGrows(states[n - 1], events[n - 1]);
    }
  }

  lemma InvOrders<R>(s: Pool<R>)
    requires Inv(s)
    ensures s.started <= |s.scheduled|
    ensures NoDuplicates(StartedRequests(s)) && NoDuplicates(Requests(s.completed))
  {
  }

  lemma NextGrows<R>(s: Pool<R>, e: Event<R>)
    requires Inv(s)
    ensures var t := Next(s, e);
      && s.scheduled <= t.scheduled && s.completed <= t.completed
      && s.started <= t.started && (t.started <= |t.scheduled| ==> StartedRequests(s) <= StartedRequests(t))
  {
    hide Waiting, Outcomes, NoDuplicates, Without;
  }

  // ----- what the events of a session determine -----

  /** The requests scheduled, in order. */
  ghost function ScheduledBy<R>(events: seq<Event<R>>): seq<R> {
    if events == [] then []
    else
      var last := events[|events| - 1];
      ScheduledBy(events[..|events| - 1]) + if last.Scheduled? then [last.r] else []
  }

  ghost function FinishedBy<R>(events: seq<Event<R>>): set<R> {
    if events == [] then {}
    else
      var last := events[|events| - 1];
      FinishedBy(events[..|events| - 1]) + if last.Finished? then {last.r} else {}
  }

  lemma {:induction false} FinishedMembers<R>(events: seq<Event<R>>, r: R)
    ensures r in FinishedBy(events) <==> Finished(r) in events
  {
    if events != [] {
      FinishedMembers(events[..|events| - 1], r);
      assert events == events[..|events| - 1] + [events[|events| - 1]];
    }
  }

  lemma NextScheduled<R>(s: Pool<R>, e: Event<R>)
    ensures Next(s, e).scheduled == s.scheduled + if e.Scheduled? then [e.r] else []
    ensures Next(s, e).ready == if e.Readied? then s.ready[e.r := e.success] else s.ready
  {
    hide Waiting, Outcomes;
  }

  lemma {:induction false} SessionScheduled<R>(events: seq<Event<R>>, states: seq<Pool<R>>, n: nat)
    requires IsSession(events, states) && n <= |events|
    ensures states[n].scheduled == ScheduledBy(events[..n])
  {
    hide Next, Possible;
    if n > 0 {
      SessionScheduled(events, states, n - 1);
      NextScheduled(states[n - 1], events[n - 1]);
      assert events[..n][..n - 1] == events[..n - 1];
    }
  }

  /** The running requests are those started and not in `gone`. */
  ghost predicate RunsAllBut<R>(s: Pool<R>, gone: set<R>) {
    && NoDuplicates(s.scheduled) && s.started <= |s.scheduled|
    && (forall r :: r in gone ==> r in s.scheduled[..s.started])
    && s.running == (set r | r in s.scheduled[..s.started] && r !in gone)
  }

  lemma FillRuns<R>(s: Pool<R>, gone: set<R>)
    requires RunsAllBut(s, gone)
    ensures RunsAllBut(Fill(s), gone)
  {
    if |s.running| < MAX_YIELD_THREADS && s.started < |s.scheduled| {
      assert s.scheduled[..s.started + 1] == s.scheduled[..s.started] + [s.scheduled[s.started]];
    }
  }

  lemma NextRuns<R>(s: Pool<R>, e: Event<R>, gone: set<R>)
    requires Inv(s) && Possible(s, e) && RunsAllBut(s, gone)
    ensures RunsAllBut(Next(s, e), gone + if e.Finished? then {e.r} else {})
  {
    hide Fill, Waiting, Outcomes, Without, Requests;
    match e
    case Scheduled(r) =>
      assert (s.scheduled + [r])[..s.started] == s.scheduled[..s.started];
      FillRuns(s.(scheduled := s.scheduled + [r], active := s.active + [r]), gone);
    case Finished(r) => FillRuns(s.(running := s.running - {r}), gone + {r});
    case _ =>
  }

  lemma {:induction false} SessionRuns<R>(events: seq<Event<R>>, states: seq<Pool<R>>, n: nat)
    requires IsSession(events, states) && n <= |events|
    ensures RunsAllBut(states[n], FinishedBy(events[..n]))
  {
    hide Next, Possible, Inv;
    if n > 0 {
      SessionRuns(events, states, n - 1);
      SessionInv(events, states, n - 1);
      assert events[n - 1] == events[n - 1];
      NextRuns(states[n - 1], events[n - 1], FinishedBy(events[..n - 1]));
      assert events[..n][..n - 1] == events[..n - 1];
    }
  }

  /** In every session, a request is running if and only if it was started and its worker
      has not ended.  There are at most three of them, and exactly three while a request
      waits: a worker that ends makes room for the oldest one. */
  lemma SessionRunning<R>(events: seq<Event<R>>, states: seq<Pool<R>>, n: nat)
    requires IsSession(events, states) && n <= |events|
    ensures var s := states[n];
      && s.started <= |s.scheduled|
      && s.running == (set r | r in StartedRequests(s) && Finished(r) !in events[..n])
      && |s.running| <= 3 && (s.started < |s.scheduled| ==> |s.running| == 3)
  {
    hide Next, Possible, NoDuplicates, FinishedBy;
    SessionInv(events, states, n);
    SessionRuns(events, states, n);
    forall r | r in StartedRequests(states[n])
      ensures r in FinishedBy(events[..n]) <==> Finished(r) in events[..n]
    {
      FinishedMembers(events[..n], r);
    }
  }

  /** Event `j` reports an outcome for `r`, and no later event does. */
  ghost predicate LastReport<R>(events: seq<Event<R>>, r: R, j: nat) {
    && j < |events| && events[j].Readied? && events[j].r == r
    && forall k :: j < k < |events| ==> !(events[k].Readied? && events[k].r == r)
  }

  /** The last outcome reported for `r` is `ok`. */
  ghost predicate LastOutcome<R>(events: seq<Event<R>>, r: R, ok: bool) {
    exists j: nat :: LastReport(events, r, j) && events[j].success == ok
  }

  lemma LastOutcomeStep<R>(events: seq<Event<R>>, r: R, ok: bool)
    requires events != []
    ensures var (before, last) := (events[..|events| - 1], events[|events| - 1]);
      LastOutcome(events, r, ok)
      <==> if last.Readied? && last.r == r then last.success == ok else LastOutcome(before, r, ok)
  {
    var n := |events| - 1;
    var before, last := events[..n], events[n];
    if last.Readied? && last.r == r {
      assert LastReport(events, r, n);
      assert forall j: nat :: LastReport(events, r, j) ==> j == n;
    } else {
      forall j: nat
        ensures LastReport(events, r, j) <==> LastReport(before, r, j)
      {
        assert forall k :: 0 <= k < n ==> before[k] == events[k];
      }
    }
  }

  /** In every session, a request is ready with the outcome that was reported last. */
  lemma {:induction false} SessionReady<R>(events: seq<Event<R>>, states: seq<Pool<R>>, n: nat, r: R, ok: bool)
    requires IsSession(events, states) && n <= |events|
    ensures r in states[n].ready && states[n].ready[r] == ok <==> LastOutcome(events[..n], r, ok)
  {
    hide Next, Possible;
    if n > 0 {
      SessionReady(events, states, n - 1, r, ok);
      NextScheduled(states[n - 1], events[n - 1]);
      LastOutcomeStep(events[..n], r, ok);
      assert events[..n][..n - 1] == events[..n - 1];
    }
  }

  /** What a step completes are the ready ones of the active requests, in their order. */
  lemma {:induction false} OutcomesInOrder<R>(list: seq<R>, ready: map<R, bool>)
    requires NoDuplicates(list)
    ensures Requests(Outcomes(list, ready)) == Without(list, Waiting(list, ready))
    ensures Waiting(list, ready) == Without(list, Requests(Outcomes(list, ready)))
  {
    if list != [] {
      var tail, r := list[1..], list[0];
      OutcomesInOrder(tail, ready);
      var done, wait := Requests(Outcomes(tail, ready)), Waiting(tail, ready);
      var head := if r in ready then [(r, ready[r])] else [];
      RequestsConcat(head, Outcomes(tail, ready));
      WaitingMembers(tail, ready, r);
      OutcomeMembers(tail, ready, r);
      if r in ready {
        assert Requests(head) == [r] && [] + wait == wait;
        WithoutFirst(tail, done, r);
      } else {
        assert Requests(head) == [] && [] + done == done;
        WithoutFirst(tail, wait, r);
      }
    }
  }

  /** Nothing but a step completes requests, and a step completes the active ones that
      are ready, each with its outcome, in the order of the active list. */
  lemma StepCompletes<R>(s: Pool<R>, e: Event<R>)
    requires Inv(s) && Possible(s, e)
    ensures var t := Next(s, e);
      if !e.Stepped? then t.completed == s.completed
      else
        && Requests(t.completed) == Requests(s.completed) + Without(s.active, t.active)
        && (forall r :: r in s.active ==> (r in t.active <==> r !in s.ready))
        && (forall r :: r in t.active ==> r in s.active)
  {
    hide Waiting, Outcomes, Without;
    if e.Stepped? {
      WithoutDistinct(s.scheduled, Requests(s.completed));
      OutcomesInOrder(s.active, s.ready);
      RequestsConcat(s.completed, Outcomes(s.active, s.ready));
      forall r | r in s.active
        ensures r in Next(s, e).active <==> r !in s.ready
      {
        WaitingMembers(s.active, s.ready, r);
      }
      forall r | r in Next(s, e).active
        ensures r in s.active
      {
        WaitingMembers(s.active, s.ready, r);
      }
    }
  }

  lemma {:induction false} WithoutFirst<R>(all: seq<R>, gone: seq<R>, r: R)
    requires r !in all
    ensures Without(all, [r] + gone) == Without(all, gone)
  {
    if all != [] {
      WithoutFirst(all[1..], gone, r);
    }
  }

  lemma {:induction false} WaitingMembers<R>(list: seq<R>, ready: map<R, bool>, r: R)
    ensures r in Waiting(list, ready) <==> r in list && r !in ready
  {
    if list != [] {
      WaitingMembers(list[1..], ready, r);
      assert r in list <==> r == list[0] || r in list[1..];
    }
  }

  /** Every scheduled request is either completed, once, or still active; those
      that wait for a worker are active and not ready. */
  lemma Conservation<R>(s: Pool<R>)
    requires Inv(s)
    ensures |s.scheduled| == |s.active| + |s.completed|
    ensures forall r :: r in s.scheduled <==> r in s.active || r in Requests(s.completed)
    ensures forall r :: r in s.active ==> r !in Requests(s.completed)
    ensures forall r :: r in s.scheduled[s.started..] ==> r in s.active && r !in s.ready && r !in s.running
  {
    var done := Requests(s.completed);
    CompletedScheduled(s);
    WithoutDistinct(s.scheduled, done);
    forall r
      ensures r in s.active <==> r in s.scheduled && r !in done
    {
      WithoutMembers(s.scheduled, done, r);
    }
    Cardinality(s.scheduled);
    Cardinality(s.active);
    Cardinality(done);
    assert (set r | r in s.scheduled) == (set r | r in s.active) + (set r | r in done);
    assert (set r | r in s.active) !! (set r | r in done);
    QueuedAreNew(s);
  }

  lemma QueuedAreNew<R>(s: Pool<R>)
    requires NoDuplicates(s.scheduled) && s.started <= |s.scheduled|
    ensures forall r :: r in s.scheduled[s.started..] ==> r in s.scheduled && r !in s.scheduled[..s.started]
  {
  }

  // ----- completing while iterating -----

  /** The loop over the active list is at index `i` of what is left of it: the part
      before stays, and the rest is still to be treated. */
  ghost predicate Underway<R>(s: Pool<R>, list: seq<R>, i: nat, done: seq<(R, bool)>) {
    && i <= |list| && (forall r :: r in list ==> r in s.scheduled)
    && list[..i] + Waiting(list[i..], s.ready) == Waiting(s.active, s.ready)
    && done + Outcomes(list[i..], s.ready) == s.completed + Outcomes(s.active, s.ready)
  }

  lemma UnderwayStart<R>(s: Pool<R>)
    requires forall r :: r in s.active ==> r in s.scheduled
    ensures Underway(s, s.active, 0, s.completed)
  {
    assert s.active[..0] + Waiting(s.active, s.ready) == Waiting(s.active, s.ready);
  }

  lemma TreatOne<R>(list: seq<R>, i: nat, ready: map<R, bool>)
    requires i < |list|
    ensures Waiting(list[i..], ready) == (if list[i] in ready then [] else [list[i]]) + Waiting(list[i + 1..], ready)
    ensures Outcomes(list[i..], ready)
         == (if list[i] in ready then [(list[i], ready[list[i]])] else []) + Outcomes(list[i + 1..], ready)
  {
    assert list[i..][1..] == list[i + 1..];
  }

  /** A request that is not ready stays. */
  lemma UnderwaySkip<R>(s: Pool<R>, list: seq<R>, i: nat, done: seq<(R, bool)>)
    requires Underway(s, list, i, done) && i < |list| && list[i] !in s.ready
    ensures Underway(s, list, i + 1, done)
  {
    hide Waiting, Outcomes;
    TreatOne(list, i, s.ready);
    var more := Waiting(list[i + 1..], s.ready);
    assert list[..i] + ([list[i]] + more) == list[..i + 1] + more;
    assert [] + Outcomes(list[i + 1..], s.ready) == Outcomes(list[i + 1..], s.ready);
  }

  /** A request that is ready is completed and erased. */
  lemma UnderwayErase<R>(s: Pool<R>, list: seq<R>, i: nat, done: seq<(R, bool)>)
    requires Underway(s, list, i, done) && i < |list| && list[i] in s.ready
    ensures Underway(s, list[..i] + list[i + 1..], i, done + [(list[i], s.ready[list[i]])])
  {
    hide Waiting, Outcomes;
    TreatOne(list, i, s.ready);
    var shorter := list[..i] + list[i + 1..];
    assert shorter[..i] == list[..i] && shorter[i..] == list[i + 1..];
    assert [] + Waiting(list[i + 1..], s.ready) == Waiting(list[i + 1..], s.ready);
    var o, more := (list[i], s.ready[list[i]]), Outcomes(list[i + 1..], s.ready);
    assert done + ([o] + more) == done + [o] + more;
  }

  // ----- requests scheduled while others are completed -----

  function ScheduleAll<R(==)>(s: Pool<R>, news: seq<R>): Pool<R> {
    if news == [] then s else Schedule(ScheduleAll(s, news[..|news| - 1]), news[|news| - 1])
  }

  /** Scheduling appends to the active list and does not look at what is in it. */
  lemma ScheduleAside<R>(s: Pool<R>, active: seq<R>, done: seq<(R, bool)>, r: R)
    ensures var t := Schedule(s, r);
      && Schedule(s.(active := active, completed := done), r) == t.(active := active + [r], completed := done)
      && t.active == s.active + [r] && t.completed == s.completed
      && t.ready == s.ready && t.scheduled == s.scheduled + [r]
  {
  }

  lemma {:induction false} ScheduleAllAside<R>(s: Pool<R>, active: seq<R>, done: seq<(R, bool)>, news: seq<R>)
    ensures ScheduleAll(s.(active := active, completed := done), news)
         == ScheduleAll(s, news).(active := active + news, completed := done)
    ensures ScheduleAll(s, news).active == s.active + news && ScheduleAll(s, news).completed == s.completed
    ensures ScheduleAll(s, news).ready == s.ready && ScheduleAll(s, news).scheduled == s.scheduled + news
    decreases |news|
  {
    hide Schedule;
    if news == [] {
      assert active + news == active && s.active + news == s.active && s.scheduled + news == s.scheduled;
    } else {
      var before, r := news[..|news| - 1], news[|news| - 1];
      ScheduleAllAside(s, active, done, before);
      ScheduleAside(ScheduleAll(s, before), active + before, done, r);
      assert active + news == active + before + [r] && s.active + news == s.active + before + [r];
      assert s.scheduled + news == s.scheduled + before + [r];
    }
  }

  lemma ScheduleOne<R>(s: Pool<R>, r: R)
    ensures ScheduleAll(s, [r]) == Schedule(s, r)
  {
    assert ScheduleAll(s, []) == s;
  }

  lemma {:induction false} ScheduleAllConcat<R>(s: Pool<R>, news: seq<R>, more: seq<R>)
    ensures ScheduleAll(ScheduleAll(s, news), more) == ScheduleAll(s, news + more)
    decreases |more|
  {
    hide Schedule;
    if more == [] {
      assert news + more == news;
    } else {
      var before, r := more[..|more| - 1], more[|more| - 1];
      ScheduleAllConcat(s, news, before);
      assert (news + more)[..|news + more| - 1] == news + before;
    }
  }

  lemma {:induction false} TreatNone<R>(list: seq<R>, ready: map<R, bool>)
    requires forall r :: r in list ==> r !in ready
    ensures Waiting(list, ready) == list && Outcomes(list, ready) == []
  {
    if list != [] {
      TreatNone(list[1..], ready);
      assert list == [list[0]] + list[1..] && list[0] in list;
    }
  }

  lemma TreatFirst<R>(list: seq<R>, ready: map<R, bool>)
    requires list != []
    ensures Waiting(list, ready) == (if list[0] in ready then [] else [list[0]]) + Waiting(list[1..], ready)
    ensures Outcomes(list, ready)
         == (if list[0] in ready then [(list[0], ready[list[0]])] else []) + Outcomes(list[1..], ready)
  {
  }

  lemma Behind<T>(a: seq<T>, b: seq<T>, c: seq<T>)
    ensures a + (b + c) == a + b + c
  {
  }

  lemma Tails<T>(a: seq<T>, b: seq<T>)
    requires a != []
    ensures (a + b)[0] == a[0] && (a + b)[1..] == a[1..] + b
  {
  }

  lemma {:induction false} TreatConcat<R>(list: seq<R>, news: seq<R>, ready: map<R, bool>)
    requires forall r :: r in news ==> r !in ready
    ensures Waiting(list + news, ready) == Waiting(list, ready) + news
    ensures Outcomes(list + news, ready) == Outcomes(list, ready)
    decreases |list|
  {
    TreatNone(news, ready);
    if list == [] {
      assert list + news == news && [] + news == news;
    } else {
      var longer, tail, wait := list + news, list[1..], Waiting(list[1..], ready);
      Tails(list, news);
      TreatConcat(tail, news, ready);
      TreatFirst(longer, ready);
      TreatFirst(list, ready);
      hide Waiting, Outcomes;
      Behind(if list[0] in ready then [] else [list[0]], wait, news);
    }
  }

  /** New requests are at the end of the list, and not ready. */
  lemma UnderwayGrow<R>(s: Pool<R>, list: seq<R>, i: nat, done: seq<(R, bool)>, news: seq<R>)
    requires Underway(s, list, i, done) && forall r :: r in news ==> r !in s.ready
    ensures Underway(ScheduleAll(s, news), list + news, i, done)
  {
    hide Waiting, Outcomes, ScheduleAll;
    ScheduleAllAside(s, s.active, s.completed, news);
    TreatConcat(list[i..], news, s.ready);
    TreatConcat(s.active, news, s.ready);
    assert (list + news)[..i] == list[..i] && (list + news)[i..] == list[i..] + news;
    assert list[..i] + (Waiting(list[i..], s.ready) + news) == list[..i] + Waiting(list[i..], s.ready) + news;
  }

  /** Completing one request. */
  function CompleteOne<R(==)>(s: Pool<R>, i: nat): Pool<R>
    requires i < |s.active| && s.active[i] in s.ready
  {
    s.(active := s.active[..i] + s.active[i + 1..],
       completed := s.completed + [(s.active[i], s.ready[s.active[i]])])
  }

  lemma {:induction false} WithoutOneMore<R>(all: seq<R>, gone: seq<R>, i: nat)
    requires NoDuplicates(all) && i < |Without(all, gone)|
    ensures var list := Without(all, gone);
      Without(all, gone + [list[i]]) == list[..i] + list[i + 1..]
  {
    assert all != [];
    hide Without;
    var list, rest := Without(all, gone), Without(all[1..], gone);
    WithoutStep(all, gone);
    WithoutStep(all, gone + [list[i]]);
    if all[0] in gone {
      assert list == rest;
      WithoutOneMore(all[1..], gone, i);
    } else if i == 0 {
      WithoutSame(all[1..], gone, all[0]);
      assert list[..0] + list[1..] == rest;
    } else {
      WithoutOneMore(all[1..], gone, i - 1);
      WithoutMembers(all[1..], gone, rest[i - 1]);
      EraseBehind(all[0], rest, i - 1);
    }
  }

  lemma WithoutStep<R>(all: seq<R>, gone: seq<R>)
    requires all != []
    ensures Without(all, gone) == (if all[0] in gone then [] else [all[0]]) + Without(all[1..], gone)
  {
  }

  lemma EraseBehind<R>(r: R, rest: seq<R>, i: nat)
    requires i < |rest|
    ensures var list := [r] + rest;
      list[i + 1] == rest[i] && list[..i + 1] + list[i + 2..] == [r] + (rest[..i] + rest[i + 1..])
  {
  }

  lemma {:induction false} WithoutSame<R>(all: seq<R>, gone: seq<R>, r: R)
    requires r !in all
    ensures Without(all, gone + [r]) == Without(all, gone)
  {
    if all != [] {
      WithoutSame(all[1..], gone, r);
    }
  }

  lemma CompleteOneInv<R>(s: Pool<R>, i: nat)
    requires Inv(s) && i < |s.active| && s.active[i] in s.ready
    ensures Inv(CompleteOne(s, i))
  {
    hide Without;
    var r, done := s.active[i], Requests(s.completed);
    WithoutOneMore(s.scheduled, done, i);
    WithoutMembers(s.scheduled, done, r);
    RequestsConcat(s.completed, [(r, s.ready[r])]);
    assert Requests([(r, s.ready[r])]) == [r];
    DistinctConcat(done, [r]);
  }

  function Resumed<R>(done: seq<(R, bool)>): nat {
    if done == [] then 0 else Resumed(done[..|done| - 1]) + if done[|done| - 1].1 then 1 else 0
  }

  lemma {:induction false} ResumedConcat<R>(a: seq<(R, bool)>, b: seq<(R, bool)>)
    ensures Resumed(a + b) == Resumed(a) + Resumed(b)
    decreases |b|
  {
    if b == [] {
      assert a + b == a;
    } else {
      assert (a + b)[..|a + b| - 1] == a + b[..|b| - 1];
      ResumedConcat(a, b[..|b| - 1]);
    }
  }

  /** How many requests the first `n` resumed scripts schedule. */
  function Total(script: nat -> nat, n: nat): nat {
    if n == 0 then 0 else Total(script, n - 1) + script(n - 1)
  }

  lemma TotalStep(script: nat -> nat, n: nat)
    ensures Total(script, n) == if n == 0 then 0 else Total(script, n - 1) + script(n - 1)
  {
  }

  lemma ResumedStep<R>(done: seq<(R, bool)>, o: (R, bool))
    ensures Resumed(done + [o]) == Resumed(done) + if o.1 then 1 else 0
  {
    assert (done + [o])[..|done|] == done;
  }

  lemma UnderwayListed<R>(s: Pool<R>, list: seq<R>, i: nat, done: seq<(R, bool)>)
    requires Underway(s, list, i, done) && i < |list|
    ensures list[i] in s.scheduled
  {
  }

  lemma ResumeChanges<R>(s: Pool<R>)
    ensures Resume(s) == s.(active := Resume(s).active, completed := Resume(s).completed)
  {
  }

  lemma UnderwayEnd<R>(s: Pool<R>, list: seq<R>, done: seq<(R, bool)>)
    requires Underway(s, list, |list|, done)
    ensures list == Resume(s).active && done == Resume(s).completed
  {
    assert list[..|list|] + [] == list;
    assert done + [] == done;
  }

  // ----- the lists of the scheduler -----

  lemma QueueFront<R>(scheduled: seq<R>, queue: seq<R>)
    requires 0 < |queue| <= |scheduled| && queue == scheduled[|scheduled| - |queue|..]
    ensures var started := |scheduled| - |queue|;
      queue[0] == scheduled[started] && queue[1..] == scheduled[started + 1..]
  {
  }

  class YieldingRequest {
    var isReady: bool
    var success: bool

    constructor ()
      ensures !isReady
    {
      isReady, success := false, false;
    }
  }

  /** The scheduler, as far as yields go: `queuedYields` wait for a worker,
      `activeYields` wait for their completion. */
  class YieldScheduler {
    var activeYields: seq<YieldingRequest>
    var queuedYields: seq<YieldingRequest>
    var activeYieldThreads: int

    // history, and the requests workers are running
    ghost var scheduled: seq<YieldingRequest>
    ghost var running: set<YieldingRequest>
    ghost var completed: seq<(YieldingRequest, bool)>

    ghost function Ready(): map<YieldingRequest, bool>
      reads this, scheduled
    {
      map r | r in scheduled && r.isReady :: r.success
    }

    ghost function View(): Pool<YieldingRequest>
      reads this, scheduled
    {
      Pool(scheduled, if |queuedYields| <= |scheduled| then |scheduled| - |queuedYields| else 0,
           running, activeYields, Ready(), completed)
    }

    ghost predicate Valid()
      reads this, scheduled
    {
      && Inv(View())
      && |queuedYields| <= |scheduled| && queuedYields == scheduled[|scheduled| - |queuedYields|..]
      && activeYieldThreads == |running|
    }

    constructor ()
      ensures Valid() && View() == Fresh()
    {
      hide Inv;
      activeYields, queuedYields, activeYieldThreads := [], [], 0;
      scheduled, running, completed := [], {}, [];
      FreshInv<YieldingRequest>();
      new;
      assert Ready() == map[];
    }

    /** Start the oldest queued request, if there is one. */
    method ProcessNextYield()
      requires |queuedYields| <= |scheduled| && queuedYields == scheduled[|scheduled| - |queuedYields|..]
      requires activeYieldThreads == |running| && NoDuplicates(scheduled)
      requires forall r :: r in running ==> r !in queuedYields
      modifies `queuedYields, `activeYieldThreads, `running
      ensures |queuedYields| <= |scheduled| && queuedYields == scheduled[|scheduled| - |queuedYields|..]
      ensures activeYieldThreads == |running|
      ensures View() == StartNext(old(View()))
    {
      if |queuedYields| == 0 {
        return;
      }
      hide NoDuplicates;
      QueueFront(scheduled, queuedYields);
      var yieldToProcess := queuedYields[0];
      assert yieldToProcess in queuedYields && |running + {yieldToProcess}| == |running| + 1;
      queuedYields := queuedYields[1..];
      activeYieldThreads := activeYieldThreads + 1;
      // a detached worker runs the yield function of the request
      running := running + {yieldToProcess};
    }

    /** Start a request if fewer workers run than may. */
    method FillWorkers()
      requires |queuedYields| <= |scheduled| && queuedYields == scheduled[|scheduled| - |queuedYields|..]
      requires activeYieldThreads == |running| && NoDuplicates(scheduled)
      requires forall r :: r in running ==> r !in queuedYields
      modifies `queuedYields, `activeYieldThreads, `running
      ensures |queuedYields| <= |scheduled| && queuedYields == scheduled[|scheduled| - |queuedYields|..]
      ensures activeYieldThreads == |running|
      ensures View() == Fill(old(View()))
    {
      hide StartNext, NoDuplicates;
      if activeYieldThreads < MAX_YIELD_THREADS {
        ProcessNextYield();
      }
    }

    method ScheduleYield() returns (r: YieldingRequest)
      requires Valid()
      modifies this
      ensures Valid() && fresh(r) && !r.isReady
      ensures View() == Schedule(old(View()), r)
    {
      hide Inv, NoDuplicates, Requests, Fill;
      r := new YieldingRequest();
      ghost var s := View();
      QueueFacts(s);
      NewRequest(s, r);
      scheduled := scheduled + [r];
      activeYields := activeYields + [r];
      queuedYields := queuedYields + [r];
      assert Ready() == s.ready;
      assert View() == s.(scheduled := s.scheduled + [r], active := s.active + [r]);
      FillWorkers();
      ScheduleInv(s, r);
    }

    lemma NewRequest(s: Pool<YieldingRequest>, r: YieldingRequest)
      requires Valid() && s == View() && r !in s.scheduled
      ensures NoDuplicates(s.scheduled + [r])
      ensures r !in s.running
    {
    }

    lemma QueueFacts(s: Pool<YieldingRequest>)
      requires Valid() && s == View()
      ensures NoDuplicates(s.scheduled) && s.started <= |s.scheduled|
      ensures queuedYields == s.scheduled[s.started..]
      ensures forall r :: r in s.running ==> r !in queuedYields
    {
      QueuedAreNew(s);
    }

    /** What a worker does after its yield function returned or threw. */
    method WorkerDone(ghost r: YieldingRequest)
      requires Valid() && r in running
      modifies `queuedYields, `activeYieldThreads, `running
      ensures Valid() && View() == Finish(old(View()), r)
    {
      hide Inv, NoDuplicates, Requests, Fill;
      ghost var s := View();
      QueueFacts(s);
      assert |running - {r}| == |running| - 1;
      running := running - {r};
      activeYieldThreads := activeYieldThreads - 1;
      assert View() == s.(running := s.running - {r});
      FillWorkers();
      FinishInv(s, r);
    }

    /** What a yield function does when the result is there. */
    method SetReady(r: YieldingRequest, success: bool)
      requires Valid() && r in StartedRequests(View()) && r !in Requests(completed)
      modifies r
      ensures Valid() && View() == MakeReady(old(View()), r, success)
    {
      hide Inv, NoDuplicates, Requests;
      ghost var s := View();
      assert r in s.scheduled by { assert r in s.scheduled[..s.started]; }
      r.success := success;
      r.isReady := true;
      assert Ready() == s.ready[r := success];
      ReadyInv(s, r, success);
    }

    /** The loop over the active list is at index `i`, and `news` are the requests that
        were scheduled since it began in state `s`. */
    ghost predicate Now(s: Pool<YieldingRequest>, news: seq<YieldingRequest>, i: nat)
      reads this, scheduled
    {
      var t := ScheduleAll(s, news);
      && View() == t.(active := activeYields, completed := completed)
      && Underway(t, activeYields, i, completed)
    }

    lemma NowFacts(s: Pool<YieldingRequest>, news: seq<YieldingRequest>, i: nat)
      requires Now(s, news, i) && i < |activeYields|
      ensures var t := ScheduleAll(s, news); t.ready == s.ready == Ready()
      ensures activeYields[i] in scheduled
      ensures Outcomes(activeYields[i..], s.ready)
           == (if activeYields[i] in s.ready then [(activeYields[i], s.ready[activeYields[i]])] else [])
            + Outcomes(activeYields[i + 1..], s.ready)
    {
      hide Waiting, Outcomes;
      ScheduleAllAside(s, s.active, s.completed, news);
      UnderwayListed(ScheduleAll(s, news), activeYields, i, completed);
      TreatOne(activeYields, i, s.ready);
    }

    lemma NowStart(s: Pool<YieldingRequest>)
      requires Valid() && s == View()
      ensures Now(s, [], 0) && forall r :: r in s.ready ==> r in s.scheduled
    {
      hide Waiting, Outcomes;
      ActiveScheduled(s);
      UnderwayStart(s);
    }

    lemma NowBound(s: Pool<YieldingRequest>, news: seq<YieldingRequest>, i: nat)
      requires Now(s, news, i) && forall r :: r in news ==> r !in s.ready
      ensures |completed| <= |s.completed| + |Outcomes(s.active, s.ready)|
    {
      hide ScheduleAll, Waiting, Outcomes;
      ScheduleAllAside(s, s.active, s.completed, news);
      TreatConcat(s.active, news, s.ready);
      var t := ScheduleAll(s, news);
      assert |completed + Outcomes(activeYields[i..], s.ready)| == |t.completed + Outcomes(t.active, s.ready)|;
    }

    lemma NowSkip(s: Pool<YieldingRequest>, news: seq<YieldingRequest>, i: nat)
      requires Now(s, news, i) && i < |activeYields| && activeYields[i] !in s.ready
      ensures Now(s, news, i + 1)
    {
      hide ScheduleAll, Underway;
      ScheduleAllAside(s, s.active, s.completed, news);
      UnderwaySkip(ScheduleAll(s, news), activeYields, i, completed);
    }

    /** Record the outcome of the request at index `i`, and erase it. */
    method Complete(i: nat, ghost s: Pool<YieldingRequest>, ghost news: seq<YieldingRequest>)
      requires Valid() && Now(s, news, i) && i < |activeYields| && activeYields[i] in s.ready
      modifies `activeYields, `completed
      ensures Valid() && Now(s, news, i)
      ensures activeYields == old(activeYields[..i] + activeYields[i + 1..])
      ensures completed == old(completed) + [(old(activeYields[i]), s.ready[old(activeYields[i])])]
    {
      hide Inv, Underway, ScheduleAll, Waiting, Outcomes;
      ghost var v := View();
      NowFacts(s, news, i);
      UnderwayErase(ScheduleAll(s, news), activeYields, i, completed);
      CompleteOneInv(v, i);
      completed := completed + [(activeYields[i], activeYields[i].success)];
      activeYields := activeYields[..i] + activeYields[i + 1..];
      assert View() == CompleteOne(v, i);
    }

    /** After a script has scheduled `more` requests, the loop is where it was. */
    lemma NowMore(s: Pool<YieldingRequest>, news: seq<YieldingRequest>, more: seq<YieldingRequest>, i: nat,
                  list: seq<YieldingRequest>, done: seq<(YieldingRequest, bool)>)
      requires Underway(ScheduleAll(s, news), list, i, done) && forall r :: r in more ==> r !in s.ready
      requires View() == ScheduleAll(ScheduleAll(s, news).(active := list, completed := done), more)
      ensures Now(s, news + more, i) && activeYields == list + more && completed == done
    {
      hide Underway, ScheduleAll;
      var t := ScheduleAll(s, news);
      ScheduleAllAside(s, s.active, s.completed, news);
      ScheduleAllAside(t, list, done, more);
      ScheduleAllConcat(s, news, more);
      UnderwayGrow(t, list, i, done, more);
    }

    lemma NowView(s: Pool<YieldingRequest>, news: seq<YieldingRequest>, i: nat)
      requires Now(s, news, i)
      ensures View() == ScheduleAll(s, news).(active := activeYields, completed := completed)
      ensures Underway(ScheduleAll(s, news), activeYields, i, completed)
    {
    }

    lemma NowNew(s: Pool<YieldingRequest>, news: seq<YieldingRequest>, i: nat)
      requires Now(s, news, i) && forall r :: r in s.ready ==> r in s.scheduled
      ensures forall r :: r in s.ready ==> r in scheduled
    {
      hide ScheduleAll, Underway;
      ScheduleAllAside(s, s.active, s.completed, news);
    }

    /** What a resumed script may do: schedule requests of its own. */
    method RunScript(n: nat, ghost s: Pool<YieldingRequest>, ghost news: seq<YieldingRequest>, ghost i: nat)
      returns (ghost news': seq<YieldingRequest>)
      requires Valid() && Now(s, news, i) && forall r :: r in s.ready ==> r in s.scheduled
      modifies this
      ensures Valid() && Now(s, news', i) && |news'| == |news| + n
      ensures forall r :: r in news' ==> r in news || (fresh(r) && r !in s.ready)
      ensures old(activeYields) <= activeYields && completed == old(completed)
    {
      hide Inv, Schedule, Now, Underway, ScheduleAll;
      news' := news;
      NowNew(s, news, i);
      for j := 0 to n
        invariant Valid() && Now(s, news', i) && |news'| == |news| + j
        invariant forall r :: r in news' ==> r in news || (fresh(r) && r !in s.ready)
        invariant forall r :: r in s.ready ==> r in old(scheduled)
        invariant old(activeYields) <= activeYields && completed == old(completed)
      {
        ghost var list, done, v := activeYields, completed, View();
        NowView(s, news', i);
        var r := ScheduleYield();
        ScheduleOne(v, r);
        assert r !in s.ready;
        NowMore(s, news', [r], i, list, done);
        news' := news' + [r];
      }
    }

    lemma NowEnd(s: Pool<YieldingRequest>, news: seq<YieldingRequest>, i: nat)
      requires Now(s, news, i) && i == |activeYields| && forall r :: r in news ==> r !in s.ready
      ensures View() == Resume(ScheduleAll(s, news))
      ensures completed == s.completed + Outcomes(s.active, s.ready)
      ensures Resumed(completed) == Resumed(s.completed) + Resumed(Outcomes(s.active, s.ready))
    {
      hide ScheduleAll, Underway, Waiting, Outcomes;
      var t := ScheduleAll(s, news);
      UnderwayEnd(t, activeYields, completed);
      ScheduleAllAside(s, s.active, s.completed, news);
      TreatConcat(s.active, news, s.ready);
      ResumedConcat(s.completed, Outcomes(s.active, s.ready));
    }

    /** The second loop of a step: complete the ready requests.  Those that succeeded
        resume a script, and the k-th of these schedules `script(k)` requests, which
        are appended to the list under the loop. */
    method ResumeReady(script: nat -> nat) returns (ghost news: seq<YieldingRequest>)
      requires Valid()
      modifies this
      ensures Valid() && View() == Resume(ScheduleAll(old(View()), news))
      ensures forall r :: r in news ==> fresh(r)
      ensures |news| == Total(script, Resumed(Outcomes(old(activeYields), old(Ready()))))
    {
      hide Inv, Resume, Underway, Requests, NoDuplicates, Without, ScheduleAll, Now, Waiting, Outcomes;
      hide Resumed, Total, Valid;
      ghost var s := View();
      TotalStep(script, 0);
      NowStart(s);
      ghost var goal := |s.completed| + |Outcomes(s.active, s.ready)|;
      var i, k := 0, 0;
      news := [];
      NowBound(s, news, i);
      while i < |activeYields|
        invariant 0 <= i <= |activeYields| && Valid() && Now(s, news, i) && |news| == Total(script, k)
        invariant forall r :: r in news ==> fresh(r) && r !in s.ready
        invariant Resumed(completed) == Resumed(s.completed) + k
        invariant |completed| <= goal
        decreases goal - |completed|, |activeYields| - i
      {
        var yieldRequest := activeYields[i];
        NowFacts(s, news, i);
        if !yieldRequest.isReady {
          NowSkip(s, news, i);
          i := i + 1;
        } else {
          // the callback's result decides between an error and a resumption
          if yieldRequest.success {
            news := RunScript(script(k), s, news, i);
            TotalStep(script, k + 1);
            k := k + 1;
          }
          ResumedStep(completed, (yieldRequest, yieldRequest.success));
          Complete(i, s, news);
          NowBound(s, news, i);
        }
      }
      NowEnd(s, news, i);
    }

    lemma ActiveScheduled(s: Pool<YieldingRequest>)
      requires Valid() && s == View()
      ensures forall r :: r in activeYields ==> r in scheduled
    {
      forall r | r in activeYields
        ensures r in scheduled
      {
        WithoutMembers(s.scheduled, Requests(s.completed), r);
      }
    }
  }
}
