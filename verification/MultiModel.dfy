/** Optimistic transactions on values: multi.c, and what processCommand does with clients in MULTI. */
module MultiModel {
  import opened Options
  import opened Bytes
  import opened Resp
  import opened Adlist

  datatype Key = Key(db: nat, name: Text)

  /** The transaction state of a client; watched is its list of watched keys. */
  datatype Client = Client(watched: seq<Key>, multi: bool, queue: seq<Argv>, dirtyCas: bool, dirtyExec: bool)

  /** Clients by number, and for each watched key the list of clients that watch it. */
  datatype State = State(clients: map<nat, Client>, index: map<Key, seq<nat>>, ran: seq<(nat, Argv)>)

  function NewClient(): Client { Client([], false, [], false, false) }

  // ----- the two-way index

  /** The clients that watch a key, which has no entry when there are none. */
  function Watchers(index: map<Key, seq<nat>>, k: Key): seq<nat> {
    if k in index then index[k] else []
  }

  /** The index and the clients' lists say the same, and neither says anything twice. */
  ghost predicate Inverse(s: State) {
    && (forall c :: c in s.clients ==> NoRepeats(s.clients[c].watched))
    && (forall k :: k in s.index ==> s.index[k] != [] && NoRepeats(s.index[k]))
    && (forall k, c :: c in Watchers(s.index, k) <==> Watching(s, c, k))
  }

  predicate Watching(s: State, c: nat, k: Key) {
    c in s.clients && k in s.clients[c].watched
  }

  /** watchForKey. */
  function WatchKey(s: State, c: nat, k: Key): State
    requires c in s.clients
  {
    var cl := s.clients[c];
    if k in cl.watched then s
    else s.(clients := s.clients[c := cl.(watched := cl.watched + [k])],
            index := s.index[k := Watchers(s.index, k) + [c]])
  }

  lemma WatchKeyKeeps(s: State, c: nat, k: Key)
    requires Inverse(s) && c in s.clients
    ensures Inverse(WatchKey(s, c, k))
  {
    var t := WatchKey(s, c, k);
    if k !in s.clients[c].watched {
      assert !Watching(s, c, k);
      forall q, d ensures d in Watchers(t.index, q) <==> Watching(t, d, q) {
        assert d in Watchers(s.index, q) <==> Watching(s, d, q);
      }
    }
  }

  /** The index after a client was taken out of one key's list. */
  function Unlisted(index: map<Key, seq<nat>>, c: nat, k: Key): map<Key, seq<nat>> {
    var rest := Without(Watchers(index, k), c);
    if rest == [] then index - {k} else index[k := rest]
  }

  function UnlistedAll(index: map<Key, seq<nat>>, c: nat, ks: seq<Key>): map<Key, seq<nat>> {
    if ks == [] then index else UnlistedAll(Unlisted(index, c, ks[0]), c, ks[1..])
  }

  /** unwatchAllKeys. */
  function UnwatchAll(s: State, c: nat): State
    requires c in s.clients
  {
    s.(clients := s.clients[c := s.clients[c].(watched := [])],
       index := UnlistedAll(s.index, c, s.clients[c].watched))
  }

  ghost predicate Proper(index: map<Key, seq<nat>>) {
    forall k :: k in index ==> index[k] != [] && NoRepeats(index[k])
  }

  lemma UnlistedIs(index: map<Key, seq<nat>>, c: nat, k: Key)
    requires Proper(index)
    ensures Proper(Unlisted(index, c, k))
    ensures forall q, d :: d in Watchers(Unlisted(index, c, k), q) <==> d in Watchers(index, q) && !(d == c && q == k)
  {
    WithoutMembers(Watchers(index, k), c);
  }

  lemma {:induction false} UnlistedAllIs(index: map<Key, seq<nat>>, c: nat, ks: seq<Key>)
    requires Proper(index)
    ensures Proper(UnlistedAll(index, c, ks))
    ensures forall q, d ::
      d in Watchers(UnlistedAll(index, c, ks), q) <==> d in Watchers(index, q) && !(d == c && q in ks)
    decreases |ks|
  {
    if ks != [] {
      UnlistedIs(index, c, ks[0]);
      UnlistedAllIs(Unlisted(index, c, ks[0]), c, ks[1..]);
      assert forall q :: q in ks <==> q == ks[0] || q in ks[1..];
    }
  }

  lemma UnwatchAllKeeps(s: State, c: nat)
    requires Inverse(s) && c in s.clients
    ensures Inverse(UnwatchAll(s, c))
  {
    var t := UnwatchAll(s, c);
    UnlistedAllIs(s.index, c, s.clients[c].watched);
    forall q, d ensures d in Watchers(t.index, q) <==> Watching(t, d, q) {
      assert d in Watchers(s.index, q) <==> Watching(s, d, q);
    }
  }

  /** What the execution of a command does to keys: one is modified, or a database (or all, for
      None) is flushed while it holds the given keys. */
  datatype Effect = Touch(key: Key) | Flush(db: Option<nat>, keys: set<Key>)

  predicate Affects(f: Effect, k: Key) {
    match f
    case Touch(q) => q == k
    case Flush(db, keys) => (db.None? || k.db == db.value) && k in keys
  }

  predicate Hit(f: Effect, ks: seq<Key>) { exists k :: k in ks && Affects(f, k) }

  function Marked(cl: Client, hit: bool): Client { if hit then cl.(dirtyCas := true) else cl }

  /** touchWatchedKey and touchWatchedKeysOnFlush. */
  function Apply(s: State, f: Effect): (t: State)
    ensures t.clients.Keys == s.clients.Keys
  {
    match f
    case Touch(k) =>
      s.(clients := map c | c in s.clients :: Marked(s.clients[c], c in Watchers(s.index, k)))
    case Flush(_, _) =>
      s.(clients := map c | c in s.clients :: Marked(s.clients[c], Hit(f, s.clients[c].watched)))
  }

  function ApplyAll(s: State, fs: seq<Effect>): (t: State)
    ensures t.clients.Keys == s.clients.Keys
    decreases |fs|
  {
    if fs == [] then s else ApplyAll(Apply(s, fs[0]), fs[1..])
  }

  predicate Hits(fs: seq<Effect>, ks: seq<Key>) { exists i :: 0 <= i < |fs| && Hit(fs[i], ks) }

  /** An effect marks exactly the clients that watch what it affects: by way of the index or of the
      clients' own lists is the same. */
  lemma ApplyMarks(s: State, f: Effect)
    requires Inverse(s)
    ensures Apply(s, f).index == s.index && Apply(s, f).ran == s.ran && Inverse(Apply(s, f))
    ensures forall c :: c in s.clients ==> Apply(s, f).clients[c] == Marked(s.clients[c], Hit(f, s.clients[c].watched))
  {
    var t := Apply(s, f);
    forall c | c in s.clients ensures t.clients[c] == Marked(s.clients[c], Hit(f, s.clients[c].watched)) {
      if f.Touch? {
        assert c in Watchers(s.index, f.key) <==> Watching(s, c, f.key);
        if c in Watchers(s.index, f.key) { assert Affects(f, f.key); }
      }
    }
    forall q, d ensures d in Watchers(t.index, q) <==> Watching(t, d, q) {
      assert d in Watchers(s.index, q) <==> Watching(s, d, q);
    }
  }

  lemma {:induction false} ApplyAllMarks(s: State, fs: seq<Effect>)
    requires Inverse(s)
    ensures ApplyAll(s, fs).index == s.index && ApplyAll(s, fs).ran == s.ran && Inverse(ApplyAll(s, fs))
    ensures forall c :: c in s.clients ==>
      ApplyAll(s, fs).clients[c] == Marked(s.clients[c], Hits(fs, s.clients[c].watched))
    decreases |fs|
  {
    if fs != [] {
      ApplyMarks(s, fs[0]);
      ApplyAllMarks(Apply(s, fs[0]), fs[1..]);
      forall c | c in s.clients ensures HitsSplit(fs, s.clients[c].watched) { SplitHits(fs, s.clients[c].watched); }
    }
  }

  predicate HitsSplit(fs: seq<Effect>, ks: seq<Key>)
    requires fs != []
  {
    Hits(fs, ks) <==> Hit(fs[0], ks) || Hits(fs[1..], ks)
  }

  lemma SplitHits(fs: seq<Effect>, ks: seq<Key>)
    requires fs != []
    ensures HitsSplit(fs, ks)
  {
    if Hits(fs, ks) && !Hit(fs[0], ks) {
      var i :| 0 <= i < |fs| && Hit(fs[i], ks);
      assert Hit(fs[1..][i - 1], ks);
    }
    if Hits(fs[1..], ks) {
      var i :| 0 <= i < |fs[1..]| && Hit(fs[1..][i], ks);
      assert Hit(fs[i + 1], ks);
    }
  }

  // ----- commands

  /** discardTransaction. */
  function Discard(s: State, c: nat): State
    requires c in s.clients
  {
    var t := UnwatchAll(s, c);
    t.(clients := t.clients[c := NewClient()])
  }

  function Tagged(c: nat, q: seq<Argv>): (r: seq<(nat, Argv)>)
    ensures |r| == |q| && forall i :: 0 <= i < |q| ==> r[i] == (c, q[i])
  {
    seq(|q|, i requires 0 <= i < |q| => (c, q[i]))
  }

  /** execCommand inside MULTI: nothing is run when a watched key was touched or queueing failed;
      else the keys are unwatched, the queue is run, and the transaction is over. */
  function Exec(s: State, c: nat, effects: seq<Effect>): State
    requires c in s.clients
  {
    var cl := s.clients[c];
    if cl.dirtyCas || cl.dirtyExec then Discard(s, c)
    else
      var t := UnwatchAll(s, c);
      Discard(ApplyAll(t.(ran := t.ran + Tagged(c, cl.queue)), effects), c)
  }

  datatype Event =
    | Watch(c: nat, key: Key)
    | Unwatch(c: nat)
    | Multi(c: nat)
    | Discarded(c: nat)
    | Execed(c: nat, effects: seq<Effect>, ok: bool)
    | Command(c: nat, argv: Argv, effects: seq<Effect>)
    | Rejected(c: nat)
    | Replaced(c: nat)

  const UNWATCH: Argv := [[85, 78, 87, 65, 84, 67, 72]]

  function Enqueue(s: State, c: nat, argv: Argv): State
    requires c in s.clients
  {
    s.(clients := s.clients[c := s.clients[c].(queue := s.clients[c].queue + [argv])])
  }

  /** One request of a client: inside MULTI commands are queued, but for EXEC, DISCARD, MULTI and
      WATCH, of which the last two are refused there; a rejected command spoils the transaction.
      The flag of Execed is the outcome that the client sees. Replaced is a client that is freed, its
      number going to a new connection. */
  function Step(s: State, e: Event): (t: State)
    requires e.c in s.clients
    ensures t.clients.Keys == s.clients.Keys
  {
    var cl := s.clients[e.c];
    match e
    case Watch(c, k) => if cl.multi then s else WatchKey(s, c, k)
    case Unwatch(c) =>
      if cl.multi then Enqueue(s, c, UNWATCH)
      else var t := UnwatchAll(s, c); t.(clients := t.clients[c := t.clients[c].(dirtyCas := false)])
    case Multi(c) => if cl.multi then s else s.(clients := s.clients[c := cl.(multi := true)])
    case Discarded(c) => if cl.multi then Discard(s, c) else s
    case Execed(c, effects, _) => if cl.multi then Exec(s, c, effects) else s
    case Command(c, argv, effects) =>
      if cl.multi then Enqueue(s, c, argv) else ApplyAll(s.(ran := s.ran + [(c, argv)]), effects)
    case Rejected(c) => if cl.multi then s.(clients := s.clients[c := cl.(dirtyExec := true)]) else s
    case Replaced(c) => Discard(s, c)
  }

  /** What a key's modification and a flush mark, in plain terms: the clients that watch the key, and
      those that watch a key that is in the flushed database, or in any. */
  lemma TouchMarks(s: State, k: Key, c: nat)
    requires Inverse(s) && c in s.clients
    ensures Apply(s, Touch(k)).clients[c] ==
      if k in s.clients[c].watched then s.clients[c].(dirtyCas := true) else s.clients[c]
  {
    ApplyMarks(s, Touch(k));
    assert Affects(Touch(k), k);
  }

  lemma FlushMarks(s: State, db: Option<nat>, keys: set<Key>, c: nat)
    requires Inverse(s) && c in s.clients
    ensures Apply(s, Flush(db, keys)).clients[c] ==
      if exists k :: k in s.clients[c].watched && k in keys && (db == None || db == Some(k.db))
      then s.clients[c].(dirtyCas := true) else s.clients[c]
  {
    ApplyMarks(s, Flush(db, keys));
  }

  // ----- a step, client by client

  /** EXEC will run the client's transaction. */
  predicate Willing(cl: Client) { cl.multi && !cl.dirtyCas && !cl.dirtyExec }

  /** The effects of the commands that a step runs. */
  function Done(s: State, e: Event): seq<Effect>
    requires e.c in s.clients
  {
    var cl := s.clients[e.c];
    match e
    case Command(_, _, fs) => if cl.multi then [] else fs
    case Execed(_, fs, _) => if Willing(cl) then fs else []
    case _ => []
  }

  /** What a step makes of the client whose request it is. */
  function Own(cl: Client, e: Event): Client {
    match e
    case Watch(_, k) => if cl.multi || k in cl.watched then cl else cl.(watched := cl.watched + [k])
    case Unwatch(_) =>
      if cl.multi then cl.(queue := cl.queue + [UNWATCH]) else cl.(watched := [], dirtyCas := false)
    case Multi(_) => cl.(multi := true)
    case Discarded(_) => if cl.multi then NewClient() else cl
    case Execed(_, _, _) => if cl.multi then NewClient() else cl
    case Command(_, argv, fs) =>
      if cl.multi then cl.(queue := cl.queue + [argv]) else Marked(cl, Hits(fs, cl.watched))
    case Rejected(_) => if cl.multi then cl.(dirtyExec := true) else cl
    case Replaced(_) => NewClient()
  }

  /** What a step makes of any client. */
  function Stepped(s: State, e: Event, d: nat): Client
    requires e.c in s.clients && d in s.clients
  {
    if d == e.c then Own(s.clients[d], e) else Marked(s.clients[d], Hits(Done(s, e), s.clients[d].watched))
  }

  lemma DiscardIs(s: State, c: nat)
    requires Inverse(s) && c in s.clients
    ensures Inverse(Discard(s, c)) && Discard(s, c).clients == s.clients[c := NewClient()] && Discard(s, c).ran == s.ran
  {
    UnwatchAllKeeps(s, c);
    var t := UnwatchAll(s, c);
    var u := Discard(s, c);
    forall q, d ensures d in Watchers(u.index, q) <==> Watching(u, d, q) {
      assert d in Watchers(t.index, q) <==> Watching(t, d, q);
    }
  }

  lemma ExecIs(s: State, c: nat, fs: seq<Effect>)
    requires Inverse(s) && c in s.clients && !s.clients[c].dirtyCas && !s.clients[c].dirtyExec
    ensures Inverse(Exec(s, c, fs)) && Exec(s, c, fs).ran == s.ran + Tagged(c, s.clients[c].queue)
    ensures Exec(s, c, fs).clients[c] == NewClient()
    ensures forall d :: d in s.clients && d != c ==>
      Exec(s, c, fs).clients[d] == Marked(s.clients[d], Hits(fs, s.clients[d].watched))
  {
    UnwatchAllKeeps(s, c);
    var t := UnwatchAll(s, c).(ran := s.ran + Tagged(c, s.clients[c].queue));
    forall q, d ensures d in Watchers(t.index, q) <==> Watching(t, d, q) {
      assert Watching(t, d, q) == Watching(UnwatchAll(s, c), d, q);
    }
    ApplyAllMarks(t, fs);
    DiscardIs(ApplyAll(t, fs), c);
  }

  /** Changing what is not a list of keys keeps the index right. */
  lemma SameLists(s: State, t: State)
    requires Inverse(s) && t.index == s.index && t.clients.Keys == s.clients.Keys
    requires forall c :: c in s.clients ==> t.clients[c].watched == s.clients[c].watched
    ensures Inverse(t)
  {
    forall q, d ensures d in Watchers(t.index, q) <==> Watching(t, d, q) {
      assert d in Watchers(s.index, q) <==> Watching(s, d, q);
    }
  }

  lemma NoHits(ks: seq<Key>)
    ensures !Hits([], ks)
  {
  }

  /** The commands that a step runs, in order: a command at once outside MULTI, the queue at an EXEC
      that is not refused, and none otherwise. */
  function RunsNow(cl: Client, e: Event): seq<(nat, Argv)> {
    if e.Command? && !cl.multi then [(e.c, e.argv)]
    else if e.Execed? && Willing(cl) then Tagged(e.c, cl.queue)
    else []
  }

  /** What a step comes to, client by client. */
  ghost predicate StepIs(s: State, e: Event, t: State)
    requires e.c in s.clients
  {
    && Inverse(t) && t.clients.Keys == s.clients.Keys
    && t.ran == s.ran + RunsNow(s.clients[e.c], e)
    && forall d :: d in s.clients ==> t.clients[d] == Stepped(s, e, d)
  }

  lemma UnwatchIs(s: State, c: nat)
    requires Inverse(s) && c in s.clients
    ensures StepIs(s, Unwatch(c), Step(s, Unwatch(c)))
  {
    if s.clients[c].multi {
      SameLists(s, Step(s, Unwatch(c)));
    } else {
      UnwatchAllKeeps(s, c);
      SameLists(UnwatchAll(s, c), Step(s, Unwatch(c)));
    }
  }

  lemma ExecedIs(s: State, e: Event)
    requires Inverse(s) && e.Execed? && e.c in s.clients
    ensures StepIs(s, e, Step(s, e))
  {
    if s.clients[e.c].multi {
      if Willing(s.clients[e.c]) {
        ExecIs(s, e.c, e.effects);
      } else {
        DiscardIs(s, e.c);
      }
    }
  }

  lemma CommandIs(s: State, e: Event)
    requires Inverse(s) && e.Command? && e.c in s.clients
    ensures StepIs(s, e, Step(s, e))
  {
    if s.clients[e.c].multi {
      SameLists(s, Step(s, e));
    } else {
      var t := s.(ran := s.ran + [(e.c, e.argv)]);
      SameLists(s, t);
      ApplyAllMarks(t, e.effects);
    }
  }

  /** A step keeps the index and the clients' lists inverse to each other, and makes of every client
      what the client's own state and the effects of the step say, whatever the index was. */
  lemma StepKeeps(s: State, e: Event)
    requires Inverse(s) && e.c in s.clients
    ensures StepIs(s, e, Step(s, e))
  {
    match e
    case Watch(c, k) => WatchKeyKeeps(s, c, k);
    case Unwatch(c) => UnwatchIs(s, c);
    case Multi(_) => SameLists(s, Step(s, e));
    case Discarded(c) => if s.clients[c].multi { DiscardIs(s, c); }
    case Execed(_, _, _) => ExecedIs(s, e);
    case Command(_, _, _) => CommandIs(s, e);
    case Rejected(c) => if s.clients[c].multi { SameLists(s, Step(s, e)); }
    case Replaced(c) => DiscardIs(s, c);
  }
}
