/** The contents of a client's reply list, with the places of lengths that are not yet known. */
module ReplyStream {
  import opened Options
  import opened Bytes

  const CHUNK := 16 * 1024

  /** A byte of a reply, or the place where the multi bulk length of a deferred reply will go. */
  datatype Sym = Sent(b: Byte) | Hole(id: nat)

  /** A node of the reply list; its object has no string until the length it stands for is set. */
  datatype Node = Node(id: nat, text: Option<Text>)

  function Syms(s: Text): (r: seq<Sym>)
    ensures |r| == |s| && forall i :: 0 <= i < |s| ==> r[i] == Sent(s[i])
  {
    seq(|s|, i requires 0 <= i < |s| => Sent(s[i]))
  }

  lemma SymsAppend(a: Text, b: Text)
    ensures Syms(a + b) == Syms(a) + Syms(b)
  {
  }

  function NodeSyms(n: Node): seq<Sym> {
    if n.text.Some? then Syms(n.text.value) else [Hole(n.id)]
  }

  function ListSyms(reply: seq<Node>): seq<Sym> {
    if reply == [] then [] else NodeSyms(reply[0]) + ListSyms(reply[1..])
  }

  lemma {:induction false} ListAppend(a: seq<Node>, b: seq<Node>)
    ensures ListSyms(a + b) == ListSyms(a) + ListSyms(b)
    decreases |a|
  {
    if a == [] {
      assert a + b == b;
    } else {
      assert (a + b)[0] == a[0] && (a + b)[1..] == a[1..] + b;
      ListAppend(a[1..], b);
    }
  }

  lemma {:induction false} ListSnoc(a: seq<Node>, n: Node)
    ensures ListSyms(a + [n]) == ListSyms(a) + NodeSyms(n)
  {
    ListAppend(a, [n]);
    assert ListSyms([n]) == NodeSyms(n) + ListSyms([]);
  }

  // ----- adding at the end

  /** The three _addReply*ToList functions: glue to the last node when it is a string and the two
      fit a chunk, else begin a new node. */
  function Added(reply: seq<Node>, id: nat, s: Text): seq<Node> {
    if reply == [] then [Node(id, Some(s))]
    else
      var tail := reply[|reply| - 1];
      if tail.text.Some? && |tail.text.value| + |s| <= CHUNK
      then reply[..|reply| - 1] + [Node(tail.id, Some(tail.text.value + s))]
      else reply + [Node(id, Some(s))]
  }

  lemma {:induction false} GluedSyms(init: seq<Node>, tail: Node, s: Text)
    requires tail.text.Some?
    ensures ListSyms(init + [Node(tail.id, Some(tail.text.value + s))]) == ListSyms(init + [tail]) + Syms(s)
  {
    ListSnoc(init, tail);
    ListSnoc(init, Node(tail.id, Some(tail.text.value + s)));
    SymsAppend(tail.text.value, s);
    assert (ListSyms(init) + Syms(tail.text.value)) + Syms(s) == ListSyms(init) + (Syms(tail.text.value) + Syms(s));
  }

  lemma {:induction false} AddedSyms(reply: seq<Node>, id: nat, s: Text)
    ensures ListSyms(Added(reply, id, s)) == ListSyms(reply) + Syms(s)
  {
    ListSnoc(reply, Node(id, Some(s)));
    if reply == [] {
      assert reply + [Node(id, Some(s))] == [Node(id, Some(s))];
    } else {
      var init, tail := reply[..|reply| - 1], reply[|reply| - 1];
      assert reply == init + [tail];
      if tail.text.Some? { GluedSyms(init, tail, s); }
    }
  }

  // ----- filling a hole

  predicate Distinct(reply: seq<Node>) {
    forall i, j :: 0 <= i < j < |reply| ==> reply[i].id != reply[j].id
  }

  /** The stream after the length of one deferred reply became known. */
  function Fill(s: seq<Sym>, id: nat, t: Text): seq<Sym> {
    if s == [] then []
    else (if s[0] == Hole(id) then Syms(t) else [s[0]]) + Fill(s[1..], id, t)
  }

  lemma {:induction false} FillAppend(a: seq<Sym>, b: seq<Sym>, id: nat, t: Text)
    ensures Fill(a + b, id, t) == Fill(a, id, t) + Fill(b, id, t)
    decreases |a|
  {
    if a == [] {
      assert a + b == b;
    } else {
      assert (a + b)[0] == a[0] && (a + b)[1..] == a[1..] + b;
      FillAppend(a[1..], b, id, t);
    }
  }

  lemma {:induction false} FillNothing(s: seq<Sym>, id: nat, t: Text)
    requires Hole(id) !in s
    ensures Fill(s, id, t) == s
  {
    if s != [] {
      FillNothing(s[1..], id, t);
    }
  }

  lemma {:induction false} FillSyms(s: Text, id: nat, t: Text)
    ensures Fill(Syms(s), id, t) == Syms(s)
  {
    FillNothing(Syms(s), id, t);
  }

  lemma {:induction false} FillElsewhere(reply: seq<Node>, id: nat, t: Text)
    requires forall i :: 0 <= i < |reply| ==> reply[i].id != id
    ensures Fill(ListSyms(reply), id, t) == ListSyms(reply)
  {
    if reply != [] {
      FillAppend(NodeSyms(reply[0]), ListSyms(reply[1..]), id, t);
      FillNothing(NodeSyms(reply[0]), id, t);
      FillElsewhere(reply[1..], id, t);
    }
  }

  /** setDeferredMultiBulkLength at position k: the node gets its string, and swallows the next one
      if that is a string too. */
  function Filled(reply: seq<Node>, k: nat, t: Text): seq<Node>
    requires k < |reply|
  {
    if k + 1 < |reply| && reply[k + 1].text.Some?
    then reply[..k] + ([Node(reply[k].id, Some(t + reply[k + 1].text.value))] + reply[k + 2..])
    else reply[..k] + ([Node(reply[k].id, Some(t))] + reply[k + 1..])
  }

  /** Filling the node fills the hole, and moves nothing. */
  lemma {:induction false} FilledSyms(reply: seq<Node>, k: nat, t: Text)
    requires k < |reply| && Distinct(reply) && reply[k].text.None?
    ensures ListSyms(Filled(reply, k, t)) == Fill(ListSyms(reply), reply[k].id, t)
  {
    var id := reply[k].id;
    var before, behind := reply[..k], reply[k + 1..];
    FillList(before, reply[k], behind, t);
    assert reply == before + ([reply[k]] + behind);
    if k + 1 < |reply| && reply[k + 1].text.Some? {
      assert behind[0] == reply[k + 1] && behind[1..] == reply[k + 2..];
      GlueSyms(before, id, t, behind);
    } else {
      PlainSyms(before, id, t, behind);
    }
  }

  lemma {:induction false} Cons(n: Node, b: seq<Node>)
    ensures ListSyms([n] + b) == NodeSyms(n) + ListSyms(b)
  {
    assert ([n] + b)[1..] == b;
  }

  lemma {:induction false} FillList(a: seq<Node>, n: Node, b: seq<Node>, t: Text)
    requires n.text.None?
    requires forall i :: 0 <= i < |a| ==> a[i].id != n.id
    requires forall i :: 0 <= i < |b| ==> b[i].id != n.id
    ensures Fill(ListSyms(a + ([n] + b)), n.id, t) == ListSyms(a) + (Syms(t) + ListSyms(b))
  {
    ListAppend(a, [n] + b);
    Cons(n, b);
    FillAppend(ListSyms(a), [Hole(n.id)] + ListSyms(b), n.id, t);
    FillAppend([Hole(n.id)], ListSyms(b), n.id, t);
    FillElsewhere(a, n.id, t);
    FillElsewhere(b, n.id, t);
    assert Fill([Hole(n.id)], n.id, t) == Syms(t) + Fill([], n.id, t);
  }

  lemma {:induction false} PlainSyms(a: seq<Node>, id: nat, t: Text, b: seq<Node>)
    ensures ListSyms(a + ([Node(id, Some(t))] + b)) == ListSyms(a) + (Syms(t) + ListSyms(b))
  {
    ListAppend(a, [Node(id, Some(t))] + b);
    Cons(Node(id, Some(t)), b);
  }

  lemma {:induction false} GlueSyms(a: seq<Node>, id: nat, t: Text, b: seq<Node>)
    requires b != [] && b[0].text.Some?
    ensures ListSyms(a + ([Node(id, Some(t + b[0].text.value))] + b[1..])) == ListSyms(a) + (Syms(t) + ListSyms(b))
  {
    var u, c := b[0].text.value, b[1..];
    PlainSyms(a, id, t + u, c);
    SymsAppend(t, u);
    assert b == [b[0]] + c;
    Cons(b[0], c);
    SymAssoc(Syms(t), Syms(u), ListSyms(c));
  }

  lemma SymAssoc(a: seq<Sym>, b: seq<Sym>, c: seq<Sym>)
    ensures (a + b) + c == a + (b + c)
  {
  }

  /** A length set later stands in front of all that was added since its place was reserved. */
  lemma {:induction false} LengthComesFirst(a: seq<Sym>, b: seq<Sym>, id: nat, t: Text)
    requires Hole(id) !in a && Hole(id) !in b
    ensures Fill(a + ([Hole(id)] + b), id, t) == a + (Syms(t) + b)
  {
    FillAppend(a, [Hole(id)] + b, id, t);
    FillAppend([Hole(id)], b, id, t);
    FillNothing(a, id, t);
    FillNothing(b, id, t);
    assert Fill([Hole(id)], id, t) == Syms(t) + Fill([], id, t);
  }

  // ----- the queue: a static buffer, then the list

  /** What is in the static buffer, how much of the first chunk was sent, and the list. */
  datatype Out = Out(buf: Text, sent: nat, reply: seq<Node>)

  /** The chunk that is being sent: the buffer, or else the first node. */
  function Head(o: Out): Text {
    if o.buf != [] then o.buf
    else if o.reply != [] && o.reply[0].text.Some? then o.reply[0].text.value else []
  }

  function All(o: Out): seq<Sym> { Syms(o.buf) + ListSyms(o.reply) }

  /** A chunk that was sent in full is gone. */
  predicate Partial(o: Out) { o.sent == 0 || o.sent < |Head(o)| }

  /** What has still to be sent. */
  function Unsent(o: Out): seq<Sym> {
    if o.sent <= |All(o)| then All(o)[o.sent..] else []
  }

  lemma {:induction false} HeadFirst(o: Out)
    ensures |Head(o)| <= |All(o)| && All(o)[..|Head(o)|] == Syms(Head(o))
  {
    if o.buf == [] && o.reply != [] {
      assert ListSyms(o.reply) == NodeSyms(o.reply[0]) + ListSyms(o.reply[1..]);
    }
  }

  /** Adding at the end adds to what has to be sent, and keeps the first chunk as it was. */
  lemma {:induction false} AddedUnsent(o: Out, p: Out, s: Text)
    requires Partial(o) && p.sent == o.sent && All(p) == All(o) + Syms(s)
    ensures Unsent(p) == Unsent(o) + Syms(s)
  {
    HeadFirst(o);
  }

  lemma BufferAdded(o: Out, s: Text)
    requires Partial(o) && o.reply == []
    ensures Unsent(o.(buf := o.buf + s)) == Unsent(o) + Syms(s) && Partial(o.(buf := o.buf + s))
  {
    var p := o.(buf := o.buf + s);
    SymsAppend(o.buf, s);
    assert All(p) == All(o) + Syms(s);
    AddedUnsent(o, p, s);
  }

  lemma {:induction false} ListAdded(o: Out, id: nat, s: Text)
    requires Partial(o)
    ensures var p := o.(reply := Added(o.reply, id, s)); Unsent(p) == Unsent(o) + Syms(s) && Partial(p)
  {
    var p := o.(reply := Added(o.reply, id, s));
    AddedSyms(o.reply, id, s);
    assert All(p) == All(o) + Syms(s);
    AddedUnsent(o, p, s);
  }

  lemma {:induction false} HoleAdded(o: Out, id: nat)
    requires Partial(o)
    ensures var p := o.(reply := o.reply + [Node(id, None)]); Unsent(p) == Unsent(o) + [Hole(id)] && Partial(p)
  {
    var p := o.(reply := o.reply + [Node(id, None)]);
    ListSnoc(o.reply, Node(id, None));
    HeadFirst(o);
    assert All(p) == All(o) + [Hole(id)];
  }

  /** What was sent has no holes, so filling one does not touch it. */
  lemma {:induction false} FillBehind(all: seq<Sym>, sent: Text, id: nat, t: Text)
    requires |sent| <= |all| && all[..|sent|] == Syms(sent)
    ensures |sent| <= |Fill(all, id, t)| && Fill(all, id, t)[|sent|..] == Fill(all[|sent|..], id, t)
  {
    var a, b := all[..|sent|], all[|sent|..];
    assert all == a + b;
    FillAppend(a, b, id, t);
    FillSyms(sent, id, t);
  }

  lemma {:induction false} AllFilled(o: Out, k: nat, t: Text)
    requires k < |o.reply| && Distinct(o.reply) && o.reply[k].text.None?
    ensures All(o.(reply := Filled(o.reply, k, t))) == Fill(All(o), o.reply[k].id, t)
  {
    FilledSyms(o.reply, k, t);
    FillAppend(Syms(o.buf), ListSyms(o.reply), o.reply[k].id, t);
    FillSyms(o.buf, o.reply[k].id, t);
  }

  lemma {:induction false} FilledPartial(o: Out, k: nat, t: Text)
    requires Partial(o) && k < |o.reply| && o.reply[k].text.None?
    ensures Partial(o.(reply := Filled(o.reply, k, t)))
  {
  }

  lemma {:induction false} HoleFilled(o: Out, k: nat, t: Text)
    requires Partial(o) && k < |o.reply| && Distinct(o.reply) && o.reply[k].text.None?
    ensures var p := o.(reply := Filled(o.reply, k, t));
      Unsent(p) == Fill(Unsent(o), o.reply[k].id, t) && Partial(p)
  {
    AllFilled(o, k, t);
    FilledPartial(o, k, t);
    HeadFirst(o);
    var sent := Head(o)[..o.sent];
    assert All(o)[..o.sent] == Syms(sent);
    FillBehind(All(o), sent, o.reply[k].id, t);
  }

  // ----- sending

  /** The chunk that was sent in full is dropped. */
  function Next(o: Out): Out {
    if o.buf != [] then Out([], 0, o.reply) else if o.reply != [] then Out([], 0, o.reply[1..]) else o
  }

  /** The queue after n bytes of its first chunk were written. */
  function Advanced(o: Out, n: nat): Out {
    if o.sent + n == |Head(o)| then Next(o) else o.(sent := o.sent + n)
  }

  lemma {:induction false} AdvancedUnsent(o: Out, n: nat)
    requires Partial(o) && 0 < n && o.sent + n <= |Head(o)|
    ensures Unsent(Advanced(o, n)) == All(o)[o.sent + n..] && Partial(Advanced(o, n))
    ensures |Head(o)| <= |All(o)|
  {
    HeadFirst(o);
    if o.sent + n == |Head(o)| { WholeSent(o); } else { PartSent(o, o.sent + n); }
  }

  /** The stream begins with the bytes of the chunk; the rest of it is what is left behind m bytes. */
  ghost predicate Begins(all: seq<Sym>, head: Text) { |head| <= |all| && all[..|head|] == Syms(head) }

  ghost predicate Behind(all: seq<Sym>, m: nat, rest: seq<Sym>) { m <= |all| && rest == all[m..] }

  lemma {:induction false} HeadBegins(o: Out)
    ensures Begins(All(o), Head(o))
  {
    HeadFirst(o);
  }

  lemma {:induction false} UnsentBehind(o: Out)
    requires Partial(o)
    ensures Behind(All(o), o.sent, Unsent(o))
  {
    HeadFirst(o);
  }

  lemma {:induction false} AdvancedBehind(o: Out, n: nat)
    requires Partial(o) && 0 < n && o.sent + n <= |Head(o)|
    ensures Behind(All(o), o.sent + n, Unsent(Advanced(o, n)))
  {
    AdvancedUnsent(o, n);
  }

  lemma {:induction false} AdvancedSyms(o: Out, n: nat)
    requires Partial(o) && 0 < n && o.sent + n <= |Head(o)|
    ensures Syms(Head(o)[o.sent..o.sent + n]) + Unsent(Advanced(o, n)) == Unsent(o)
  {
    HeadBegins(o);
    UnsentBehind(o);
    AdvancedBehind(o, n);
    SentPart(All(o), Head(o), o.sent, o.sent + n, Unsent(o), Unsent(Advanced(o, n)));
  }

  lemma {:induction false} PartSent(o: Out, m: nat)
    requires m < |Head(o)| <= |All(o)|
    ensures Unsent(o.(sent := m)) == All(o)[m..] && Partial(o.(sent := m))
  {
  }

  lemma {:induction false} WholeSent(o: Out)
    requires Head(o) != [] && |Head(o)| <= |All(o)|
    ensures Unsent(Next(o)) == All(o)[|Head(o)|..] && Partial(Next(o))
  {
    NextAll(o);
    NextUnsent(o);
  }

  /** Advancing in the list, when the buffer is empty. */
  lemma {:induction false} AdvancedInList(o: Out, n: nat)
    requires o.buf == [] && o.reply != [] && o.reply[0].text.Some?
    ensures Head(o) == o.reply[0].text.value
    ensures Advanced(o, n) == if o.sent + n == |o.reply[0].text.value| then Out([], 0, o.reply[1..])
                              else Out([], o.sent + n, o.reply)
  {
  }

  lemma {:induction false} NextUnsent(o: Out)
    ensures Unsent(Next(o).(sent := 0)) == All(Next(o))
  {
    assert All(Next(o))[0..] == All(Next(o));
  }

  lemma SentPart(all: seq<Sym>, head: Text, i: nat, m: nat, before: seq<Sym>, after: seq<Sym>)
    requires i <= m <= |head| && Begins(all, head) && Behind(all, i, before) && Behind(all, m, after)
    ensures Syms(head[i..m]) + after == before
  {
    assert Syms(head[i..m]) == all[..|head|][i..m];
  }

  lemma {:induction false} NextAll(o: Out)
    requires Head(o) != [] || (o.buf == [] && o.reply != [] && o.reply[0].text == Some([]))
    ensures All(Next(o)) == All(o)[|Head(o)|..]
  {
    if o.buf == [] {
      assert ListSyms(o.reply) == Syms(Head(o)) + ListSyms(o.reply[1..]);
      assert All(o) == Syms(Head(o)) + ListSyms(o.reply[1..]);
    }
  }

  lemma {:induction false} EmptyDropped(o: Out)
    requires Partial(o) && o.buf == [] && o.reply != [] && o.reply[0].text == Some([])
    ensures Unsent(Next(o)) == Unsent(o) && Partial(Next(o))
  {
    NextAll(o);
    assert All(o)[0..] == All(o);
  }

  // ----- how much memory the list takes

  function Cost(size: Text -> nat, n: Node): nat { if n.text.Some? then size(n.text.value) else 0 }

  function Total(size: Text -> nat, reply: seq<Node>): nat {
    if reply == [] then 0 else Cost(size, reply[0]) + Total(size, reply[1..])
  }

  lemma {:induction false} TotalAppend(size: Text -> nat, a: seq<Node>, b: seq<Node>)
    ensures Total(size, a + b) == Total(size, a) + Total(size, b)
    decreases |a|
  {
    if a == [] {
      assert a + b == b;
    } else {
      assert (a + b)[0] == a[0] && (a + b)[1..] == a[1..] + b;
      TotalAppend(size, a[1..], b);
    }
  }

  lemma {:induction false} TotalOne(size: Text -> nat, a: seq<Node>, n: Node, b: seq<Node>)
    ensures Total(size, a + ([n] + b)) == Total(size, a) + Cost(size, n) + Total(size, b)
  {
    TotalAppend(size, a, [n] + b);
    assert ([n] + b)[1..] == b;
  }

  // ----- what every operation keeps

  predicate IdsBelow(reply: seq<Node>, next: nat) { forall i :: 0 <= i < |reply| ==> reply[i].id < next }

  /** What was written and what is still to be sent make up what was accepted, in order; nodes have
      names of their own. */
  ghost predicate Sound(o: Out, written: Text, accepted: seq<Sym>, next: nat) {
    && Partial(o) && Distinct(o.reply) && IdsBelow(o.reply, next)
    && accepted == Syms(written) + Unsent(o)
  }

  lemma SymsAssoc(a: seq<Sym>, b: seq<Sym>, c: seq<Sym>)
    ensures a + (b + c) == (a + b) + c
  {
  }

  lemma {:induction false} SoundBuffer(o: Out, written: Text, accepted: seq<Sym>, next: nat, s: Text)
    requires Sound(o, written, accepted, next) && o.reply == []
    ensures Sound(o.(buf := o.buf + s), written, accepted + Syms(s), next)
  {
    BufferAdded(o, s);
    SymsAssoc(Syms(written), Unsent(o), Syms(s));
  }

  lemma {:induction false} AddedNames(reply: seq<Node>, id: nat, s: Text)
    requires Distinct(reply) && IdsBelow(reply, id)
    ensures Distinct(Added(reply, id, s)) && IdsBelow(Added(reply, id, s), id + 1)
  {
  }

  lemma {:induction false} SoundList(o: Out, written: Text, accepted: seq<Sym>, next: nat, s: Text)
    requires Sound(o, written, accepted, next)
    ensures Sound(o.(reply := Added(o.reply, next, s)), written, accepted + Syms(s), next + 1)
  {
    ListAdded(o, next, s);
    AddedNames(o.reply, next, s);
    SymsAssoc(Syms(written), Unsent(o), Syms(s));
  }

  lemma {:induction false} SoundHole(o: Out, written: Text, accepted: seq<Sym>, next: nat)
    requires Sound(o, written, accepted, next)
    ensures Sound(o.(reply := o.reply + [Node(next, None)]), written, accepted + [Hole(next)], next + 1)
  {
    HoleAdded(o, next);
    SymsAssoc(Syms(written), Unsent(o), [Hole(next)]);
  }

  lemma {:induction false} FilledNames(reply: seq<Node>, k: nat, t: Text, next: nat)
    requires k < |reply| && Distinct(reply) && IdsBelow(reply, next)
    ensures Distinct(Filled(reply, k, t)) && IdsBelow(Filled(reply, k, t), next)
  {
  }

  lemma {:induction false} SoundFilled(o: Out, written: Text, accepted: seq<Sym>, next: nat, k: nat, t: Text)
    requires Sound(o, written, accepted, next) && k < |o.reply| && o.reply[k].text.None?
    ensures Sound(o.(reply := Filled(o.reply, k, t)), written, Fill(accepted, o.reply[k].id, t), next)
  {
    HoleFilled(o, k, t);
    FillAppend(Syms(written), Unsent(o), o.reply[k].id, t);
    FillSyms(written, o.reply[k].id, t);
    FilledNames(o.reply, k, t, next);
  }

  lemma {:induction false} NextNames(o: Out, next: nat)
    requires Distinct(o.reply) && IdsBelow(o.reply, next)
    ensures Distinct(Next(o).reply) && IdsBelow(Next(o).reply, next)
  {
  }

  lemma {:induction false} SoundSent(o: Out, written: Text, accepted: seq<Sym>, next: nat, n: nat)
    requires Sound(o, written, accepted, next) && 0 < n && o.sent + n <= |Head(o)|
    ensures Sound(Advanced(o, n), written + Head(o)[o.sent..o.sent + n], accepted, next)
  {
    var part := Head(o)[o.sent..o.sent + n];
    AdvancedUnsent(o, n);
    AdvancedSyms(o, n);
    NextNames(o, next);
    SymsAppend(written, part);
    SymsAssoc(Syms(written), Syms(part), Unsent(Advanced(o, n)));
  }

  lemma {:induction false} SoundDropped(o: Out, written: Text, accepted: seq<Sym>, next: nat)
    requires Sound(o, written, accepted, next)
    requires o.buf == [] && o.reply != [] && o.reply[0].text == Some([])
    ensures Sound(Next(o), written, accepted, next)
  {
    EmptyDropped(o);
    NextNames(o, next);
  }

  // ----- and the memory that it accounts for

  /** By how much an addition changes the memory of the list. */
  function AddedCost(size: Text -> nat, reply: seq<Node>, s: Text): int {
    if reply != [] && reply[|reply| - 1].text.Some? && |reply[|reply| - 1].text.value| + |s| <= CHUNK
    then size(reply[|reply| - 1].text.value + s) - size(reply[|reply| - 1].text.value) else size(s)
  }

  lemma {:induction false} AddedTotal(size: Text -> nat, reply: seq<Node>, id: nat, s: Text)
    ensures Total(size, Added(reply, id, s)) == Total(size, reply) + AddedCost(size, reply, s)
  {
    if reply == [] {
      assert Added(reply, id, s) == [] + ([Node(id, Some(s))] + []);
      TotalOne(size, [], Node(id, Some(s)), []);
    } else {
      var init, tail := reply[..|reply| - 1], reply[|reply| - 1];
      assert reply == init + ([tail] + []);
      TotalOne(size, init, tail, []);
      assert reply + [Node(id, Some(s))] == reply + ([Node(id, Some(s))] + []);
      TotalOne(size, reply, Node(id, Some(s)), []);
      if tail.text.Some? {
        var n := Node(tail.id, Some(tail.text.value + s));
        assert init + [n] == init + ([n] + []);
        TotalOne(size, init, n, []);
      }
    }
  }

  /** By how much filling a hole does. */
  function FilledCost(size: Text -> nat, reply: seq<Node>, k: nat, t: Text): int
    requires k < |reply|
  {
    if k + 1 < |reply| && reply[k + 1].text.Some?
    then size(t + reply[k + 1].text.value) - size(reply[k + 1].text.value) else size(t)
  }

  lemma {:induction false} FilledTotal(size: Text -> nat, reply: seq<Node>, k: nat, t: Text)
    requires k < |reply| && reply[k].text.None?
    ensures Total(size, Filled(reply, k, t)) == Total(size, reply) + FilledCost(size, reply, k, t)
  {
    var before, behind := reply[..k], reply[k + 1..];
    assert reply == before + ([reply[k]] + behind);
    TotalOne(size, before, reply[k], behind);
    TotalOne(size, before, Node(reply[k].id, Some(t)), behind);
    if k + 1 < |reply| && reply[k + 1].text.Some? {
      var n := Node(reply[k].id, Some(t + reply[k + 1].text.value));
      TotalOne(size, before, n, reply[k + 2..]);
      assert behind == [] + ([reply[k + 1]] + reply[k + 2..]);
      TotalOne(size, [], reply[k + 1], reply[k + 2..]);
    }
  }

  lemma {:induction false} HoleTotal(size: Text -> nat, reply: seq<Node>, id: nat)
    ensures Total(size, reply + [Node(id, None)]) == Total(size, reply)
  {
    assert reply + [Node(id, None)] == reply + ([Node(id, None)] + []);
    TotalOne(size, reply, Node(id, None), []);
  }

  lemma {:induction false} CostsTotal(size: Text -> nat, reply: seq<Node>)
    ensures forall i :: 0 <= i < |reply| ==> Cost(size, reply[i]) <= Total(size, reply)
  {
    forall i | 0 <= i < |reply| ensures Cost(size, reply[i]) <= Total(size, reply) {
      assert reply == reply[..i] + ([reply[i]] + reply[i + 1..]);
      TotalOne(size, reply[..i], reply[i], reply[i + 1..]);
    }
  }

  // ----- empty nodes

  /** How many nodes of the list hold an empty string. */
  function Empties(reply: seq<Node>): nat {
    if reply == [] then 0 else (if reply[0].text == Some([]) then 1 else 0) + Empties(reply[1..])
  }

  /** What n strings of the same size take. */
  function Times(n: nat, c: nat): nat { if n == 0 then 0 else c + Times(n - 1, c) }

  lemma {:induction false} TimesZero(n: nat, c: nat)
    ensures Times(n, c) == 0 <==> n == 0 || c == 0
    decreases n
  {
    if n > 0 { TimesZero(n - 1, c); }
  }

  /** A reply goes into the buffer while there is room and no list, else into the list. */
  function Queued(o: Out, id: nat, s: Text): Out {
    if o.reply == [] && |o.buf| + |s| <= CHUNK then o.(buf := o.buf + s) else o.(reply := Added(o.reply, id, s))
  }
}
