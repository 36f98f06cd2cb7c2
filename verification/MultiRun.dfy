/** What runs of transactions come to, told by their history alone. */
module MultiRun {
  import opened Resp
  import opened MultiModel

  // ----- runs

  predicate Known(clients: set<nat>, h: seq<Event>) { forall i :: 0 <= i < |h| ==> h[i].c in clients }

  function Start(clients: set<nat>): State {
    State(map c | c in clients :: NewClient(), map[], [])
  }

  function Run(clients: set<nat>, h: seq<Event>): (s: State)
    requires Known(clients, h)
    ensures s.clients.Keys == clients
    decreases |h|
  {
    if h == [] then Start(clients) else Step(Run(clients, h[..|h| - 1]), h[|h| - 1])
  }

  /** The outcomes of EXEC in the history are those of the run. */
  predicate Observed(clients: set<nat>, h: seq<Event>)
    requires Known(clients, h)
    decreases |h|
  {
    h != [] ==>
      var g, e := h[..|h| - 1], h[|h| - 1];
      Observed(clients, g) && (e.Execed? ==> e.ok == Willing(Run(clients, g).clients[e.c]))
  }

  // ----- what a history says of a client

  /** The client is inside MULTI. */
  predicate InMulti(h: seq<Event>, c: nat)
    decreases |h|
  {
    h != [] &&
    var e, before := h[|h| - 1], InMulti(h[..|h| - 1], c);
    if e.c != c then before
    else if e.Multi? then true
    else before && !e.Discarded? && !e.Execed? && !e.Replaced?
  }

  /** The event gives up all the client's watched keys. */
  predicate Resets(before: seq<Event>, e: Event, c: nat) {
    e.c == c &&
      (e.Replaced? || (if InMulti(before, c) then e.Discarded? || e.Execed? else e.Unwatch?))
  }

  /** The event makes the client watch the key. */
  predicate Watches(before: seq<Event>, e: Event, c: nat, k: Key) {
    e == Watch(c, k) && !InMulti(before, c)
  }

  ghost predicate NoReset(h: seq<Event>, i: int, c: nat) {
    forall m :: i < m < |h| ==> 0 <= m && !Resets(h[..m], h[m], c)
  }

  /** What the commands that an event runs do to keys. */
  function Runs(before: seq<Event>, e: Event): seq<Effect> {
    match e
    case Command(c, _, fs) => if InMulti(before, c) then [] else fs
    case Execed(_, fs, ok) => if ok then fs else []
    case _ => []
  }

  /** The event runs commands that modify the key. */
  ghost predicate Modifies(before: seq<Event>, e: Event, k: Key) {
    exists f :: f in Runs(before, e) && Affects(f, k)
  }

  /** A key was modified after the client began to watch it and before anything reset that. */
  ghost predicate TouchedSinceWatched(h: seq<Event>, c: nat) {
    exists i, j, k: Key :: 0 <= i < j < |h| && TouchedBetween(h, i, j, c, k)
  }

  ghost predicate TouchedBetween(h: seq<Event>, i: int, j: int, c: nat, k: Key)
    requires 0 <= i < j < |h|
  {
    Watches(h[..i], h[i], c, k) && Modifies(h[..j], h[j], k) && NoReset(h, i, c)
  }

  /** A command was rejected since the transaction began. */
  ghost predicate Errored(h: seq<Event>, c: nat) {
    exists i :: 0 <= i < |h| && ErroredAt(h, i, c)
  }

  ghost predicate ErroredAt(h: seq<Event>, i: int, c: nat)
    requires 0 <= i < |h|
  {
    h[i] == Rejected(c) && InMulti(h[..i], c) && NoReset(h, i, c)
  }

  /** The queue of a client in MULTI after its next request. */
  function QueuedNext(q: seq<Argv>, e: Event): seq<Argv> {
    match e
    case Command(_, argv, _) => q + [argv]
    case Unwatch(_) => q + [UNWATCH]
    case Execed(_, _, _) => []
    case Discarded(_) => []
    case Replaced(_) => []
    case _ => q
  }

  /** The commands sent since the transaction began, in order. */
  function Queued(h: seq<Event>, c: nat): seq<Argv>
    decreases |h|
  {
    if h == [] then []
    else
      var before, e := h[..|h| - 1], h[|h| - 1];
      if !InMulti(before, c) then []
      else if e.c != c then Queued(before, c)
      else QueuedNext(Queued(before, c), e)
  }

  /** The commands that were run, in order: those sent outside MULTI, and for every EXEC that was not
      refused those sent since its MULTI. */
  function Log(h: seq<Event>): seq<(nat, Argv)>
    decreases |h|
  {
    if h == [] then []
    else
      var before, e := h[..|h| - 1], h[|h| - 1];
      Log(before) +
        if e.Command? && !InMulti(before, e.c) then [(e.c, e.argv)]
        else if e.Execed? && e.ok then Tagged(e.c, Queued(before, e.c))
        else []
  }

  /** The client watches the key. */
  ghost predicate WatchedNow(h: seq<Event>, c: nat, k: Key) {
    exists i :: 0 <= i < |h| && WatchedFrom(h, i, c, k)
  }

  ghost predicate WatchedFrom(h: seq<Event>, i: int, c: nat, k: Key)
    requires 0 <= i < |h|
  {
    Watches(h[..i], h[i], c, k) && NoReset(h, i, c)
  }

  // ----- one event more

  lemma NoResetMore(g: seq<Event>, e: Event, i: int, c: nat)
    requires 0 <= i < |g|
    ensures NoReset(g + [e], i, c) <==> NoReset(g, i, c) && !Resets(g, e, c)
  {
    var h := g + [e];
    assert h[..|g|] == g && h[|g|] == e;
    assert forall m :: 0 <= m < |g| ==> h[..m] == g[..m] && h[m] == g[m];
    if NoReset(h, i, c) {
      assert !Resets(h[..|g|], h[|g|], c);
      forall m | i < m < |g| ensures !Resets(g[..m], g[m], c) { assert !Resets(h[..m], h[m], c); }
    }
  }

  lemma WatchedMore(g: seq<Event>, e: Event, c: nat, k: Key)
    ensures WatchedNow(g + [e], c, k) <==> Watches(g, e, c, k) || (WatchedNow(g, c, k) && !Resets(g, e, c))
  {
    var h := g + [e];
    assert h[..|g|] == g && h[|g|] == e;
    assert forall m :: 0 <= m < |g| ==> h[..m] == g[..m] && h[m] == g[m];
    if Watches(g, e, c, k) { assert WatchedFrom(h, |g|, c, k); }
    forall i | 0 <= i < |g| ensures WatchedFrom(h, i, c, k) <==> WatchedFrom(g, i, c, k) && !Resets(g, e, c) {
      NoResetMore(g, e, i, c);
    }
    if WatchedNow(h, c, k) {
      var i :| 0 <= i < |h| && WatchedFrom(h, i, c, k);
      if i < |g| { assert WatchedFrom(g, i, c, k); }
    }
    if WatchedNow(g, c, k) && !Resets(g, e, c) {
      var i :| 0 <= i < |g| && WatchedFrom(g, i, c, k);
      assert WatchedFrom(h, i, c, k);
    }
  }

  lemma ErroredMore(g: seq<Event>, e: Event, c: nat)
    ensures Errored(g + [e], c) <==>
      (e == Rejected(c) && InMulti(g, c)) || (Errored(g, c) && !Resets(g, e, c))
  {
    var h := g + [e];
    assert h[..|g|] == g && h[|g|] == e;
    assert forall m :: 0 <= m < |g| ==> h[..m] == g[..m] && h[m] == g[m];
    if Errored(h, c) {
      var i :| 0 <= i < |h| && ErroredAt(h, i, c);
      if i < |g| {
        NoResetMore(g, e, i, c);
        assert ErroredAt(g, i, c);
      }
    }
    if e == Rejected(c) && InMulti(g, c) {
      assert ErroredAt(h, |g|, c);
    }
    if Errored(g, c) && !Resets(g, e, c) {
      var i :| 0 <= i < |g| && ErroredAt(g, i, c);
      NoResetMore(g, e, i, c);
      assert ErroredAt(h, i, c);
    }
  }

  /** Some key that the client watches is modified by the event. */
  ghost predicate TouchedBy(g: seq<Event>, e: Event, c: nat) {
    exists k: Key :: WatchedNow(g, c, k) && Modifies(g, e, k)
  }

  lemma TouchedMore(g: seq<Event>, e: Event, c: nat)
    ensures TouchedSinceWatched(g + [e], c) <==>
      !Resets(g, e, c) && (TouchedSinceWatched(g, c) || TouchedBy(g, e, c))
  {
    var h := g + [e];
    assert h[..|g|] == g && h[|g|] == e;
    assert forall m :: 0 <= m < |g| ==> h[..m] == g[..m] && h[m] == g[m];
    if TouchedSinceWatched(h, c) {
      var i, j, k: Key :| 0 <= i < j < |h| && TouchedBetween(h, i, j, c, k);
      NoResetMore(g, e, i, c);
      if j < |g| {
        assert TouchedBetween(g, i, j, c, k);
      } else {
        assert WatchedFrom(g, i, c, k);
      }
    }
    if !Resets(g, e, c) && TouchedSinceWatched(g, c) {
      var i, j, k: Key :| 0 <= i < j < |g| && TouchedBetween(g, i, j, c, k);
      NoResetMore(g, e, i, c);
      assert TouchedBetween(h, i, j, c, k);
    }
    if !Resets(g, e, c) && TouchedBy(g, e, c) {
      var k: Key :| WatchedNow(g, c, k) && Modifies(g, e, k);
      var i :| 0 <= i < |g| && WatchedFrom(g, i, c, k);
      NoResetMore(g, e, i, c);
      assert TouchedBetween(h, i, |g|, c, k);
    }
  }

  // ----- the state is what the history says

  ghost predicate WatchList(h: seq<Event>, c: nat, watched: seq<Key>) {
    forall k :: k in watched <==> WatchedNow(h, c, k)
  }

  ghost predicate Told(cl: Client, h: seq<Event>, c: nat) {
    && cl.multi == InMulti(h, c)
    && cl.queue == Queued(h, c)
    && WatchList(h, c, cl.watched)
    && cl.dirtyCas == TouchedSinceWatched(h, c)
    && cl.dirtyExec == Errored(h, c)
  }

  /** A step runs what the history says it runs. */
  lemma DoneIsRuns(s: State, g: seq<Event>, e: Event)
    requires e.c in s.clients && Told(s.clients[e.c], g, e.c)
    requires e.Execed? ==> e.ok == Willing(s.clients[e.c])
    ensures Done(s, e) == Runs(g, e)
  {
  }

  lemma HitsIsTouchedBy(g: seq<Event>, e: Event, c: nat, watched: seq<Key>)
    requires WatchList(g, c, watched)
    ensures Hits(Runs(g, e), watched) <==> TouchedBy(g, e, c)
  {
    if Hits(Runs(g, e), watched) { HitTouches(g, e, c, watched); }
    if TouchedBy(g, e, c) { TouchHits(g, e, c, watched); }
  }

  lemma HitTouches(g: seq<Event>, e: Event, c: nat, watched: seq<Key>)
    requires WatchList(g, c, watched) && Hits(Runs(g, e), watched)
    ensures TouchedBy(g, e, c)
  {
    var fs := Runs(g, e);
    var i :| 0 <= i < |fs| && Hit(fs[i], watched);
    var k :| k in watched && Affects(fs[i], k);
    assert Modifies(g, e, k);
  }

  lemma TouchHits(g: seq<Event>, e: Event, c: nat, watched: seq<Key>)
    requires WatchList(g, c, watched) && TouchedBy(g, e, c)
    ensures Hits(Runs(g, e), watched)
  {
    var fs := Runs(g, e);
    var k: Key :| WatchedNow(g, c, k) && Modifies(g, e, k);
    var f :| f in fs && Affects(f, k);
    var i :| 0 <= i < |fs| && fs[i] == f;
    assert Hit(fs[i], watched);
  }

  lemma QueuedMore(g: seq<Event>, e: Event, c: nat)
    ensures Queued(g + [e], c) ==
      if !InMulti(g, c) then [] else if e.c != c then Queued(g, c) else QueuedNext(Queued(g, c), e)
    ensures InMulti(g + [e], c) <==>
      if e.c != c then InMulti(g, c)
      else e.Multi? || (InMulti(g, c) && !e.Discarded? && !e.Execed? && !e.Replaced?)
  {
    assert (g + [e])[..|g|] == g;
  }

  lemma {:induction false} NothingQueued(h: seq<Event>, c: nat)
    requires !InMulti(h, c)
    ensures Queued(h, c) == []
    decreases |h|
  {
    if h != [] {
      var g := h[..|h| - 1];
      assert h == g + [h[|h| - 1]];
      QueuedMore(g, h[|h| - 1], c);
    }
  }

  lemma {:induction false} NotInMulti(h: seq<Event>, c: nat)
    requires !InMulti(h, c)
    ensures !Errored(h, c)
    decreases |h|
  {
    if h != [] {
      var g, e := h[..|h| - 1], h[|h| - 1];
      assert h == g + [e];
      ErroredMore(g, e, c);
      QueuedMore(g, e, c);
      if !InMulti(g, c) { NotInMulti(g, c); }
    }
  }

  /** One client through one event. */
  lemma ClientTold(s: State, g: seq<Event>, e: Event, c: nat)
    requires Inverse(s) && e.c in s.clients && c in s.clients
    requires Told(s.clients[c], g, c) && Told(s.clients[e.c], g, e.c)
    requires e.Execed? ==> e.ok == Willing(s.clients[e.c])
    ensures Told(Stepped(s, e, c), g + [e], c)
  {
    var cl, d := s.clients[c], Stepped(s, e, c);
    QueuedMore(g, e, c);
    if !InMulti(g, c) { NothingQueued(g, c); NotInMulti(g, c); }
    ErroredMore(g, e, c);
    TouchedMore(g, e, c);
    DoneIsRuns(s, g, e);
    HitsIsTouchedBy(g, e, c, cl.watched);
    NoHits(cl.watched);
    forall k ensures k in d.watched <==> WatchedNow(g + [e], c, k) {
      WatchedMore(g, e, c, k);
    }
  }

  lemma LogMore(g: seq<Event>, e: Event, cl: Client)
    requires Told(cl, g, e.c) && (e.Execed? ==> e.ok == Willing(cl))
    ensures Log(g + [e]) == Log(g) + RunsNow(cl, e)
  {
    assert (g + [e])[..|g|] == g;
  }

  /** However clients interleave, the state is what the history of requests says: who watches what,
      whose watched keys were touched, whose transactions were spoiled, what is queued, and what was
      run; and the two sides of the watch index agree. */
  lemma {:induction false} StateIsTold(clients: set<nat>, h: seq<Event>)
    requires Known(clients, h) && Observed(clients, h)
    ensures Inverse(Run(clients, h)) && Run(clients, h).ran == Log(h)
    ensures forall c :: c in clients ==> Told(Run(clients, h).clients[c], h, c)
    decreases |h|
  {
    if h == [] {
      assert Inverse(Start(clients)) by {
        forall k, c ensures c in Watchers(map[], k) <==> Watching(Start(clients), c, k) { }
      }
      forall c | c in clients ensures Told(NewClient(), [], c) { }
    } else {
      var g, e := h[..|h| - 1], h[|h| - 1];
      assert h == g + [e] && e.c == h[|h| - 1].c;
      StateIsTold(clients, g);
      var s := Run(clients, g);
      StepKeeps(s, e);
      LogMore(g, e, s.clients[e.c]);
      forall c | c in clients ensures Told(Run(clients, h).clients[c], h, c) {
        ClientTold(s, g, e, c);
      }
    }
  }

  /** EXEC runs the transaction exactly when the client is in MULTI, none of its watched keys was
      modified since it was watched, and no command was rejected; then it runs the queued commands,
      each once and in order; otherwise it runs nothing. */
  lemma ExecDecides(clients: set<nat>, h: seq<Event>, c: nat, fs: seq<Effect>, ok: bool)
    requires Known(clients, h + [Execed(c, fs, ok)]) && Observed(clients, h + [Execed(c, fs, ok)])
    ensures Known(clients, h)
    ensures ok <==> InMulti(h, c) && !TouchedSinceWatched(h, c) && !Errored(h, c)
    ensures Run(clients, h + [Execed(c, fs, ok)]).ran
      == Run(clients, h).ran + if ok then Tagged(c, Queued(h, c)) else []
  {
    var e := Execed(c, fs, ok);
    assert (h + [e])[..|h|] == h && (h + [e])[|h|] == e;
    assert e.c in clients && forall i :: 0 <= i < |h| ==> h[i] == (h + [e])[i];
    StateIsTold(clients, h);
    var s := Run(clients, h);
    if s.clients[c].multi {
      if ok { ExecIs(s, c, fs); } else { DiscardIs(s, c); }
    }
  }
}
