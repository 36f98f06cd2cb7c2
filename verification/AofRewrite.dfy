/** The commands that rebuild a data set: aof.c, rewriteAppendOnlyFile, for strings and lists. */
module AofRewrite {
  import opened Bytes
  import opened Options
  import opened Resp
  import opened AofLog
  import opened AofModel

  const ITEMS_PER_CMD := 64
  const DBNUM := 16

  datatype Value = Str(text: Text) | Lst(items: seq<Text>)
  datatype Object = Object(value: Value, expire: Option<nat>)
  datatype Key = Key(db: int, name: Text)

  predicate Sized(t: Text) { |t| <= MAX }

  /** Lists are never empty, and no string is longer than its length field can say. */
  predicate GoodObject(o: Object) {
    && (o.expire.Some? ==> o.expire.value <= MAX)
    && match o.value
       case Str(t) => Sized(t)
       case Lst(items) => items != [] && forall i :: 0 <= i < |items| ==> Sized(items[i])
  }

  predicate GoodData(d: map<Key, Object>) {
    forall k :: k in d ==> 0 <= k.db < DBNUM && Sized(k.name) && GoodObject(d[k])
  }

  type Data = d: map<Key, Object> | GoodData(d) witness map[]

  // ----- the commands of the rewritten file

  const SET: Text := [83, 69, 84]
  const RPUSH: Text := [82, 80, 85, 83, 72]
  const PEXPIREAT: Text := [80, 69, 88, 80, 73, 82, 69, 65, 84]

  /** What the three commands do, in databases below DBNUM; anything else leaves the data alone. */
  function Apply(d: Data, db: int, argv: Argv): Data {
    if !Fits(argv) || db < 0 || db >= DBNUM then d
    else if |argv| == 3 && argv[0] == SET then
      Stored(d, Key(db, argv[1]), Object(Str(argv[2]), None))
    else if |argv| >= 3 && argv[0] == RPUSH then Pushed(d, Key(db, argv[1]), argv[2..])
    else if |argv| == 3 && argv[0] == PEXPIREAT then Expiring(d, Key(db, argv[1]), Number(argv[2]))
    else d
  }

  function Stored(d: Data, k: Key, o: Object): Data
    requires 0 <= k.db < DBNUM && Sized(k.name) && GoodObject(o)
  {
    d[k := o]
  }

  function Pushed(d: Data, k: Key, items: seq<Text>): Data
    requires 0 <= k.db < DBNUM && Sized(k.name) && items != [] && forall i :: 0 <= i < |items| ==> Sized(items[i])
  {
    if k !in d then d[k := Object(Lst(items), None)]
    else if d[k].value.Lst? then d[k := Object(Lst(d[k].value.items + items), d[k].expire)]
    else d
  }

  function Expiring(d: Data, k: Key, when: Option<int>): Data
    requires when.Some? ==> when.value <= MAX
  {
    if k !in d || when.None? || when.value < 0 then d else d[k := d[k].(expire := Some(when.value))]
  }

  /** rewriteListObject: RPUSH commands of at most 64 items. */
  function Pushes(name: Text, items: seq<Text>): seq<Argv>
    decreases |items|
  {
    if items == [] then []
    else
      var n := if |items| > ITEMS_PER_CMD then ITEMS_PER_CMD else |items|;
      [[RPUSH, name] + items[..n]] + Pushes(name, items[n..])
  }

  function ValueCommands(name: Text, v: Value): seq<Argv> {
    match v
    case Str(t) => [[SET, name, t]]
    case Lst(items) => Pushes(name, items)
  }

  function ExpireCommands(name: Text, when: Option<nat>): seq<Argv> {
    if when.None? then [] else [[PEXPIREAT, name, Digits(when.value)]]
  }

  function ObjectCommands(name: Text, o: Object): seq<Argv> {
    ValueCommands(name, o.value) + ExpireCommands(name, o.expire)
  }

  /** The keys of one database. */
  function Names(d: Data, db: int): set<Text> { set k | k in d && k.db == db :: k.name }

  /** The commands for the given keys, in whatever order the dictionary yields them. */
  ghost function KeyCommands(d: Data, db: nat, names: set<Text>): seq<Argv>
    requires names <= Names(d, db)
    decreases |names|
  {
    if names == {} then []
    else
      var name :| name in names;
      ObjectCommands(name, d[Key(db, name)]) + KeyCommands(d, db, names - {name})
  }

  ghost function DbCommands(d: Data, db: nat): seq<Argv> {
    if Names(d, db) == {} then [] else [SelectCommand(db)] + KeyCommands(d, db, Names(d, db))
  }

  /** rewriteAppendOnlyFile over the first n databases. */
  ghost function DumpCommands(d: Data, n: nat): seq<Argv> {
    if n == 0 then [] else DumpCommands(d, n - 1) + DbCommands(d, n - 1)
  }

  // ----- the text of a list, item by item

  /** rewriteListObject as it writes: the header of a command announces as many items as will follow
      before the next header. */
  method RewriteListObject(name: Text, items: seq<Text>) returns (text: Text)
    ensures text == Wires(Pushes(name, items))
  {
    text := [];
    var i := 0;
    while i < |items|
      invariant i <= |items| && text + Wires(Pushes(name, items[i..])) == Wires(Pushes(name, items))
    {
      var left := |items| - i;
      var n := if left > ITEMS_PER_CMD then ITEMS_PER_CMD else left;
      var command := WritePush(name, items[i..i + n]);
      NextPush(name, items, i, n, text);
      text := text + command;
      i := i + n;
    }
    assert items[i..] == [];
    assert text + Wires([]) == text;
  }

  /** The header of one command, and its items one by one. */
  method WritePush(name: Text, batch: seq<Text>) returns (text: Text)
    ensures text == Wire([RPUSH, name] + batch)
  {
    text := Header(STAR, 2 + |batch|);
    text := text + Bulk(RPUSH);
    text := text + Bulk(name);
    PushStart(name, |batch|);
    for c := 0 to |batch|
      invariant text == Header(STAR, 2 + |batch|) + Bulks([RPUSH, name] + batch[..c])
    {
      assert [RPUSH, name] + batch[..c + 1] == ([RPUSH, name] + batch[..c]) + [batch[c]];
      BulksSnoc([RPUSH, name] + batch[..c], batch[c]);
      Assoc(Header(STAR, 2 + |batch|), Bulks([RPUSH, name] + batch[..c]), Bulk(batch[c]));
      text := text + Bulk(batch[c]);
    }
    assert batch[..|batch|] == batch;
  }

  lemma PushStart(name: Text, n: nat)
    ensures (Header(STAR, 2 + n) + Bulk(RPUSH)) + Bulk(name) == Header(STAR, 2 + n) + Bulks([RPUSH, name] + [])
  {
    assert [RPUSH, name] + [] == [RPUSH] + [name] && [RPUSH] == [] + [RPUSH];
    BulksSnoc([RPUSH], name);
    BulksSnoc([], RPUSH);
    assert Bulks([]) == [] && [] + Bulk(RPUSH) == Bulk(RPUSH);
    Assoc(Header(STAR, 2 + n), Bulk(RPUSH), Bulk(name));
  }

  lemma {:induction false} NextPush(name: Text, items: seq<Text>, i: nat, n: nat, before: Text)
    requires i < |items| && n == if |items| - i > ITEMS_PER_CMD then ITEMS_PER_CMD else |items| - i
    ensures (before + Wire([RPUSH, name] + items[i..i + n])) + Wires(Pushes(name, items[i + n..]))
      == before + Wires(Pushes(name, items[i..]))
  {
    var rest := items[i..];
    assert rest[..n] == items[i..i + n] && rest[n..] == items[i + n..];
    var argv := [RPUSH, name] + rest[..n];
    var more := Pushes(name, rest[n..]);
    assert Pushes(name, rest) == [argv] + more;
    assert ([argv] + more)[1..] == more && ([argv] + more)[0] == argv;
    Assoc(before, Wire(argv), Wires(more));
  }

  // ----- the commands rebuild the data

  ghost function TheRules(): Rules<Data> {
    Rules((d, db, argv) => Apply(d, db, argv), map[], d => DumpCommands(d, DBNUM), DBNUM)
  }

  predicate Plain(argv: Argv) { |argv| >= 1 && (argv[0] == SET || argv[0] == RPUSH || argv[0] == PEXPIREAT) }

  lemma PlainIsNoControl(argv: Argv)
    requires Plain(argv)
    ensures !Control(argv)
  {
    assert |SET| == 3 && |RPUSH| == 5 && |PEXPIREAT| == 9;
    assert Lower(RPUSH[0]) != Lower(MULTI[0]);
  }

  lemma PlayPlain(p: Player<Data>, argv: Argv)
    requires Plain(argv)
    ensures Play(TheRules(), p, argv) == p.(data := Apply(p.data, p.db, argv))
  {
    PlainIsNoControl(argv);
  }

  lemma ReplayOne<D>(u: Rules<D>, p: Player<D>, argv: Argv)
    ensures Replay(u, p, [argv]) == Play(u, p, argv)
  {
    assert [argv][1..] == [];
  }

  /** A list is pushed back whole, whatever its length, onto what the key holds already. */
  lemma {:induction false} PushesRebuild(p: Player<Data>, name: Text, items: seq<Text>)
    requires 0 <= p.db < DBNUM && Sized(name) && items != [] && forall i :: 0 <= i < |items| ==> Sized(items[i])
    requires Key(p.db, name) in p.data ==> p.data[Key(p.db, name)].value.Lst?
    ensures Replay(TheRules(), p, Pushes(name, items)) == p.(data := Pushed(p.data, Key(p.db, name), items))
    decreases |items|
  {
    var u, k := TheRules(), Key(p.db, name);
    var n := if |items| > ITEMS_PER_CMD then ITEMS_PER_CMD else |items|;
    var argv, rest := [RPUSH, name] + items[..n], items[n..];
    assert argv[2..] == items[..n] && argv[0] == RPUSH && argv[1] == name;
    assert Fits(argv) by {
      forall i | 0 <= i < |argv| ensures |argv[i]| <= MAX { if i >= 2 { assert argv[i] == items[i - 2]; } }
    }
    PlayPlain(p, argv);
    var q := Play(u, p, argv);
    assert q == p.(data := Pushed(p.data, k, items[..n]));
    ReplayAppend(u, p, [argv], Pushes(name, rest));
    ReplayOne(u, p, argv);
    if rest != [] {
      PushesRebuild(q, name, rest);
      PushedTwice(p.data, k, items[..n], rest);
      assert items[..n] + rest == items;
    } else {
      assert items[..n] == items && Pushes(name, rest) == [];
    }
  }

  lemma PushedTwice(d: Data, k: Key, a: seq<Text>, b: seq<Text>)
    requires 0 <= k.db < DBNUM && Sized(k.name) && a != [] && b != [] && (k in d ==> d[k].value.Lst?)
    requires forall i :: 0 <= i < |a| ==> Sized(a[i])
    requires forall i :: 0 <= i < |b| ==> Sized(b[i])
    ensures Pushed(Pushed(d, k, a), k, b) == Pushed(d, k, a + b)
  {
    if k in d { assert (d[k].value.items + a) + b == d[k].value.items + (a + b); }
  }

  lemma ValueRebuilt(p: Player<Data>, name: Text, v: Value)
    requires 0 <= p.db < DBNUM && Sized(name) && GoodObject(Object(v, None)) && Key(p.db, name) !in p.data
    ensures Replay(TheRules(), p, ValueCommands(name, v))
      == p.(data := Stored(p.data, Key(p.db, name), Object(v, None)))
  {
    match v
    case Str(t) =>
      ReplayOne(TheRules(), p, [SET, name, t]);
      PlayPlain(p, [SET, name, t]);
    case Lst(items) => PushesRebuild(p, name, items);
  }

  lemma ExpireRebuilt(p: Player<Data>, name: Text, o: Object, when: nat)
    requires 0 <= p.db < DBNUM && Sized(name) && when <= MAX && GoodObject(o)
    requires Key(p.db, name) in p.data && p.data[Key(p.db, name)] == o
    ensures Replay(TheRules(), p, ExpireCommands(name, Some(when)))
      == p.(data := Stored(p.data, Key(p.db, name), o.(expire := Some(when))))
  {
    var argv := [PEXPIREAT, name, Digits(when)];
    NumberOfDigits(when);
    DigitsFit(when);
    ReplayOne(TheRules(), p, argv);
    PlayPlain(p, argv);
    assert Fits(argv) && argv[0] != RPUSH && argv[0] != SET by { assert |SET| == 3 && |PEXPIREAT| == 9; }
  }

  lemma StoredTwice(d: Data, k: Key, a: Object, b: Object)
    requires 0 <= k.db < DBNUM && Sized(k.name) && GoodObject(a) && GoodObject(b)
    ensures Stored(Stored(d, k, a), k, b) == Stored(d, k, b)
  {
  }

  lemma ObjectRebuilt(p: Player<Data>, name: Text, o: Object)
    requires 0 <= p.db < DBNUM && Sized(name) && GoodObject(o) && Key(p.db, name) !in p.data
    ensures Replay(TheRules(), p, ObjectCommands(name, o)) == p.(data := Stored(p.data, Key(p.db, name), o))
  {
    var u, k, bare := TheRules(), Key(p.db, name), Object(o.value, None);
    ReplayAppend(u, p, ValueCommands(name, o.value), ExpireCommands(name, o.expire));
    ValueRebuilt(p, name, o.value);
    if o.expire.Some? {
      ExpireRebuilt(p.(data := Stored(p.data, k, bare)), name, bare, o.expire.value);
      StoredTwice(p.data, k, bare, o);
    } else {
      assert bare == o;
    }
  }

  // ----- databases

  /** The part of the data whose keys are in the given set. */
  function Part(d: Data, ks: set<Key>): Data { map k | k in d && k in ks :: d[k] }

  lemma PartMore(d: Data, ks: set<Key>, k: Key)
    requires k in d
    ensures Stored(Part(d, ks), k, d[k]) == Part(d, ks + {k})
  {
  }

  ghost function KeysOf(db: int, names: set<Text>): set<Key> { set name | name in names :: Key(db, name) }

  /** One key more. */
  lemma KeyRebuilt(d: Data, p: Player<Data>, name: Text, more: seq<Argv>, have: set<Key>, q: Player<Data>)
    requires p == Player(Part(d, have), p.db, false) && 0 <= p.db < DBNUM
    requires var k := Key(p.db, name); k in d && k !in have && PlaysTo(p.(data := Part(d, have + {k})), more, q)
    ensures PlaysTo(p, ObjectCommands(name, d[Key(p.db, name)]) + more, q)
  {
    var k, u := Key(p.db, name), TheRules();
    ReplayAppend(u, p, ObjectCommands(name, d[k]), more);
    ObjectRebuilt(p, name, d[k]);
    PartMore(d, have, k);
  }

  ghost predicate PlaysTo(p: Player<Data>, cmds: seq<Argv>, q: Player<Data>) {
    Replay(TheRules(), p, cmds) == q
  }

  lemma {:induction false} KeysRebuilt(d: Data, p: Player<Data>, db: nat, names: set<Text>, have: set<Key>)
    requires db < DBNUM && names <= Names(d, db) && p == Player(Part(d, have), db, false)
    requires forall name :: name in names ==> Key(db, name) !in have
    ensures PlaysTo(p, KeyCommands(d, db, names), p.(data := Part(d, have + KeysOf(db, names))))
    decreases |names|
  {
    if names == {} {
      assert have + KeysOf(db, names) == have;
    } else {
      var name :| name in names && KeyCommands(d, db, names) ==
        ObjectCommands(name, d[Key(db, name)]) + KeyCommands(d, db, names - {name});
      var k, more := Key(db, name), KeyCommands(d, db, names - {name});
      var q := p.(data := Part(d, have + KeysOf(db, names)));
      assert (have + {k}) + KeysOf(db, names - {name}) == have + KeysOf(db, names);
      KeysRebuilt(d, p.(data := Part(d, have + {k})), db, names - {name}, have + {k});
      KeyRebuilt(d, p, name, more, have, q);
    }
  }

  /** The keys of the first n databases. */
  function KeysBelow(d: Data, n: int): set<Key> { set k | k in d && 0 <= k.db < n }

  lemma NameKnown(d: Data, k: Key)
    requires k in d
    ensures k.name in Names(d, k.db)
  {
  }

  lemma DbRebuilt(d: Data, p: Player<Data>, db: nat)
    requires db < DBNUM && p.data == Part(d, KeysBelow(d, db)) && !p.multi
    ensures var q := Replay(TheRules(), p, DbCommands(d, db));
      q.data == Part(d, KeysBelow(d, db + 1)) && !q.multi
  {
    var u, names := TheRules(), Names(d, db);
    if names == {} {
      forall k | k in d ensures k.db != db { NameKnown(d, k); }
      assert KeysBelow(d, db) == KeysBelow(d, db + 1);
    } else {
      SelectPlays(u, p, db);
      ReplayAppend(u, p, [SelectCommand(db)], KeyCommands(d, db, names));
      ReplayOne(u, p, SelectCommand(db));
      KeysRebuilt(d, p.(db := db), db, names, KeysBelow(d, db));
      assert KeysBelow(d, db) + KeysOf(db, names) == KeysBelow(d, db + 1) by {
        forall k ensures k in KeysBelow(d, db + 1) <==> k in KeysBelow(d, db) || k in KeysOf(db, names) {
          if k in KeysBelow(d, db + 1) && k.db == db { assert k.name in names && k == Key(db, k.name); }
        }
      }
    }
  }

  /** The commands rebuild the first n databases. */
  ghost predicate Rebuilt(d: Data, cmds: seq<Argv>, n: nat) {
    var q := Replay(TheRules(), Fresh(TheRules()), cmds);
    q.data == Part(d, KeysBelow(d, n)) && !q.multi
  }

  /** One more database: first are the commands that have rebuilt those below it. */
  lemma DbAppended(d: Data, first: seq<Argv>, db: nat)
    requires db < DBNUM && Rebuilt(d, first, db)
    ensures Rebuilt(d, first + DbCommands(d, db), db + 1)
  {
    var u := TheRules();
    ReplayAppend(u, Fresh(u), first, DbCommands(d, db));
    DbRebuilt(d, Replay(u, Fresh(u), first), db);
  }

  lemma {:induction false} DumpRebuilds(d: Data, n: nat)
    requires n <= DBNUM
    ensures Rebuilt(d, DumpCommands(d, n), n)
    decreases n
  {
    if n > 0 {
      DumpRebuilds(d, n - 1);
      DumpMore(d, n);
      DbAppended(d, DumpCommands(d, n - 1), n - 1);
    }
  }

  lemma DumpMore(d: Data, n: nat)
    requires n > 0
    ensures DumpCommands(d, n) == DumpCommands(d, n - 1) + DbCommands(d, n - 1)
  {
  }

  // ----- and they fit the format

  lemma {:induction false} PushesFit(name: Text, items: seq<Text>)
    requires Sized(name) && forall i :: 0 <= i < |items| ==> Sized(items[i])
    ensures AllFit(Pushes(name, items))
    decreases |items|
  {
    if items != [] {
      var n := if |items| > ITEMS_PER_CMD then ITEMS_PER_CMD else |items|;
      var argv := [RPUSH, name] + items[..n];
      forall i | 0 <= i < |argv| ensures |argv[i]| <= MAX { if i >= 2 { assert argv[i] == items[i - 2]; } }
      PushesFit(name, items[n..]);
    }
  }

  lemma ObjectFits(name: Text, o: Object)
    requires Sized(name) && GoodObject(o)
    ensures AllFit(ObjectCommands(name, o))
  {
    if o.value.Lst? { PushesFit(name, o.value.items); }
    if o.expire.Some? { DigitsFit(o.expire.value); }
  }

  lemma {:induction false} KeysFit(d: Data, db: nat, names: set<Text>)
    requires names <= Names(d, db)
    ensures AllFit(KeyCommands(d, db, names))
    decreases |names|
  {
    if names != {} {
      var name :| name in names && KeyCommands(d, db, names) ==
        ObjectCommands(name, d[Key(db, name)]) + KeyCommands(d, db, names - {name});
      ObjectFits(name, d[Key(db, name)]);
      KeysFit(d, db, names - {name});
    }
  }

  lemma {:induction false} DumpFits(d: Data, n: nat)
    requires n <= DBNUM
    ensures AllFit(DumpCommands(d, n))
    decreases n
  {
    if n > 0 {
      DumpFits(d, n - 1);
      SelectPlays(TheRules(), Fresh(TheRules()), n - 1);
      if Names(d, n - 1) != {} { KeysFit(d, n - 1, Names(d, n - 1)); }
    }
  }

  /** rewriteAppendOnlyFile is faithful: what it writes rebuilds the data set it was written from, so
      that the promises of the log hold of it. */
  lemma RewriteIsLawful()
    ensures Lawful(TheRules())
  {
    var u := TheRules();
    forall d: Data ensures Rebuilds(u, d) {
      DumpFits(d, DBNUM);
      DumpRebuilds(d, DBNUM);
      assert Part(d, KeysBelow(d, DBNUM)) == d;
    }
  }
}
