/** Transactions as the server runs them: multi.c. */
module Multi {
  import opened Options
  import opened Resp
  import opened Adlist
  import opened MultiModel

  class Server {
    var clients: map<nat, Client>
    var watchedKeys: map<Key, seq<nat>>
    var ran: seq<(nat, Argv)>

    function View(): State
      reads this
    {
      State(clients, watchedKeys, ran)
    }

    ghost predicate Valid()
      reads this
    {
      Inverse(View())
    }

    constructor (ids: set<nat>)
      ensures Valid() && View() == State(map c | c in ids :: NewClient(), map[], [])
    {
      clients, watchedKeys, ran := map c | c in ids :: NewClient(), map[], [];
      new;
      forall k, c ensures c in Watchers(watchedKeys, k) <==> Watching(View(), c, k) { }
    }

    /** watchForKey. */
    method WatchForKey(c: nat, key: Key)
      requires Valid() && c in clients
      modifies this
      ensures View() == WatchKey(old(View()), c, key)
      ensures Valid()
    {
      WatchKeyKeeps(View(), c, key);
      var watched := clients[c].watched;
      for i := 0 to |watched|
        invariant View() == old(View()) && key !in watched[..i]
      {
        if watched[i] == key { return; }
      }
      assert watched[..|watched|] == watched;
      watchedKeys := watchedKeys[key := Watchers(watchedKeys, key) + [c]];
      clients := clients[c := clients[c].(watched := watched + [key])];
    }

    /** unwatchAllKeys: each key's list loses the client, and the key's entry goes with its last one. */
    method UnwatchAllKeys(c: nat)
      requires Valid() && c in clients
      modifies this
      ensures View() == UnwatchAll(old(View()), c)
      ensures Valid()
    {
      UnwatchAllKeeps(View(), c);
      var watched := clients[c].watched;
      for i := 0 to |watched|
        invariant clients == old(clients) && ran == old(ran)
        invariant UnlistedAll(watchedKeys, c, watched[i..]) == UnlistedAll(old(watchedKeys), c, watched)
        invariant Listed(watchedKeys, c, watched, i)
      {
        var key := watched[i];
        assert watched[i..][1..] == watched[i + 1..];
        var rest := RemoveClient(watchedKeys[key], c);
        ghost var before := watchedKeys;
        if |rest| == 0 {
          watchedKeys := watchedKeys - {key};
        } else {
          watchedKeys := watchedKeys[key := rest];
        }
        assert watchedKeys == Unlisted(before, c, key);
      }
      assert watched[|watched|..] == [];
      clients := clients[c := clients[c].(watched := [])];
    }

    /** touchWatchedKey. */
    method TouchWatchedKey(key: Key)
      requires Valid()
      modifies this`clients
      ensures View() == Apply(old(View()), Touch(key))
      ensures Valid()
    {
      ApplyMarks(View(), Touch(key));
      if key !in watchedKeys {
        assert clients == map c | c in clients :: Marked(clients[c], c in Watchers(watchedKeys, key));
        return;
      }
      var list := watchedKeys[key];
      for i := 0 to |list|
        invariant View() == old(View()).(clients := clients) && clients.Keys == old(clients).Keys
        invariant forall c :: c in clients ==> clients[c] == Marked(old(clients)[c], c in list[..i])
      {
        assert list[..i + 1] == list[..i] + [list[i]];
        assert list[i] in Watchers(old(View()).index, key);
        assert Watching(old(View()), list[i], key);
        clients := clients[list[i] := clients[list[i]].(dirtyCas := true)];
      }
      assert list[..|list|] == list;
    }

    /** touchWatchedKeysOnFlush; keys are those that the databases hold. */
    method TouchWatchedKeysOnFlush(db: Option<nat>, keys: set<Key>)
      requires Valid()
      modifies this`clients
      ensures View() == Apply(old(View()), Flush(db, keys))
      ensures Valid()
    {
      ApplyMarks(View(), Flush(db, keys));
      MarkFlushed(db, keys);
    }

    /** The loop over all clients. */
    method MarkFlushed(db: Option<nat>, keys: set<Key>)
      modifies this`clients
      ensures clients
        == map c | c in old(clients) :: Marked(old(clients)[c], Hit(Flush(db, keys), old(clients)[c].watched))
    {
      ghost var f := Flush(db, keys);
      var todo := clients.Keys;
      while todo != {}
        invariant todo <= clients.Keys == old(clients).Keys
        invariant forall c :: c in clients ==>
          clients[c] == if c in todo then old(clients)[c] else Marked(old(clients)[c], Hit(f, old(clients)[c].watched))
        decreases |todo|
      {
        var c :| c in todo;
        MarkIfFlushed(c, db, keys);
        todo := todo - {c};
      }
    }

    method MarkIfFlushed(c: nat, db: Option<nat>, keys: set<Key>)
      requires c in clients
      modifies this`clients
      ensures clients
        == old(clients)[c := Marked(old(clients)[c], Hit(Flush(db, keys), old(clients)[c].watched))]
    {
      var hit := AnyFlushed(clients[c].watched, db, keys);
      if hit { clients := clients[c := clients[c].(dirtyCas := true)]; }
    }

    /** The effects of executed commands, in turn. */
    method Touched(effects: seq<Effect>)
      requires Valid()
      modifies this`clients
      ensures View() == ApplyAll(old(View()), effects)
      ensures Valid()
    {
      for i := 0 to |effects|
        invariant Valid() && ApplyAll(View(), effects[i..]) == ApplyAll(old(View()), effects)
        invariant View() == old(View()).(clients := clients)
      {
        assert effects[i..][1..] == effects[i + 1..];
        match effects[i]
        case Touch(key) => TouchWatchedKey(key);
        case Flush(db, keys) => TouchWatchedKeysOnFlush(db, keys);
      }
      assert effects[|effects|..] == [];
    }

    /** discardTransaction. */
    method DiscardTransaction(c: nat)
      requires Valid() && c in clients
      modifies this
      ensures View() == Discard(old(View()), c)
      ensures Valid()
    {
      DiscardIs(View(), c);
      UnwatchAllKeys(c);
      clients := clients[c := NewClient()];
    }

    /** queueMultiCommand. */
    method QueueMultiCommand(c: nat, argv: Argv)
      requires Valid() && c in clients
      modifies this
      ensures View() == Enqueue(old(View()), c, argv)
      ensures Valid()
    {
      SameLists(View(), Enqueue(View(), c, argv));
      clients := clients[c := clients[c].(queue := clients[c].queue + [argv])];
    }

    /** execCommand; effects are those of the commands, should they be run. */
    method ExecCommand(c: nat, effects: seq<Effect>) returns (ok: bool)
      requires Valid() && c in clients
      modifies this
      ensures View() == Step(old(View()), Execed(c, effects, ok))
      ensures Valid() && ok == Willing(old(clients)[c])
    {
      StepKeeps(View(), Execed(c, effects, Willing(clients[c])));
      if !clients[c].multi { return false; }
      if clients[c].dirtyCas || clients[c].dirtyExec {
        DiscardTransaction(c);
        return false;
      }
      var queue := clients[c].queue;
      UnwatchAllKeys(c);
      RunQueue(c, queue);
      Touched(effects);
      DiscardTransaction(c);
      return true;
    }

    /** The queued commands, one call each. */
    method RunQueue(c: nat, queue: seq<Argv>)
      requires Valid()
      modifies this`ran
      ensures View() == old(View()).(ran := old(ran) + Tagged(c, queue))
      ensures Valid()
    {
      for j := 0 to |queue|
        invariant View() == old(View()).(ran := ran) && ran == old(ran) + Tagged(c, queue[..j])
      {
        assert Tagged(c, queue[..j + 1]) == Tagged(c, queue[..j]) + [(c, queue[j])];
        ran := ran + [(c, queue[j])];
      }
      assert queue[..|queue|] == queue;
      SameLists(old(View()), View());
    }

    /** A request as processCommand sees it: inside MULTI all but the transaction commands are
        queued. */
    method ProcessRequest(e: Event)
      requires Valid() && e.c in clients && (e.Execed? ==> e.ok == Willing(clients[e.c]))
      modifies this
      ensures View() == Step(old(View()), e)
      ensures Valid()
    {
      StepKeeps(View(), e);
      match e
      case Watch(c, key) => if !clients[c].multi { WatchForKey(c, key); }
      case Unwatch(c) =>
        if clients[c].multi {
          QueueMultiCommand(c, UNWATCH);
        } else {
          UnwatchAllKeys(c);
          clients := clients[c := clients[c].(dirtyCas := false)];
        }
      case Multi(c) => clients := clients[c := clients[c].(multi := true)];
      case Discarded(c) => if clients[c].multi { DiscardTransaction(c); }
      case Execed(c, effects, _) => var ok := ExecCommand(c, effects);
      case Command(c, argv, effects) =>
        if clients[c].multi {
          QueueMultiCommand(c, argv);
        } else {
          CallCommand(c, argv, effects);
        }
      case Rejected(c) => if clients[c].multi { clients := clients[c := clients[c].(dirtyExec := true)]; }
      case Replaced(c) => DiscardTransaction(c);
    }

    method CallCommand(c: nat, argv: Argv, effects: seq<Effect>)
      requires Valid() && c in clients
      modifies this
      ensures View() == ApplyAll(old(View()).(ran := old(ran) + [(c, argv)]), effects)
      ensures Valid()
    {
      ghost var s := View();
      ran := ran + [(c, argv)];
      SameLists(s, View());
      Touched(effects);
    }
  }

  /** Up to position i the client was taken out of its keys' lists; the other keys still have it. */
  ghost predicate Listed(index: map<Key, seq<nat>>, c: nat, watched: seq<Key>, i: nat) {
    forall j :: i <= j < |watched| ==> c in Watchers(index, watched[j])
  }

  /** listSearchKey and listDelNode. */
  method RemoveClient(list: seq<nat>, c: nat) returns (rest: seq<nat>)
    requires c in list
    ensures rest == Without(list, c)
  {
    var i := 0;
    while list[i] != c
      invariant i < |list| && c !in list[..i] && c in list[i..]
      decreases |list| - i
    {
      i := i + 1;
    }
    WithoutIsRemoved(list, c, i);
    rest := list[..i] + list[i + 1..];
  }

  /** Some key of the list is in the flushed database, and present. */
  method AnyFlushed(watched: seq<Key>, db: Option<nat>, keys: set<Key>) returns (hit: bool)
    ensures hit == Hit(Flush(db, keys), watched)
  {
    hit := false;
    for i := 0 to |watched|
      invariant hit == Hit(Flush(db, keys), watched[..i])
    {
      assert watched[..i + 1] == watched[..i] + [watched[i]];
      if (db.None? || watched[i].db == db.value) && watched[i] in keys {
        assert Affects(Flush(db, keys), watched[i]);
        hit := true;
      }
    }
    assert watched[..|watched|] == watched;
  }
}
