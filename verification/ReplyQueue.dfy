/** The output side of a client: networking.c, replies queued and drained by short writes. */
module ReplyQueue {
  import opened Bytes
  import opened Options
  import opened Resp
  import opened ReplyStream

  const MAX_WRITE := 64 * 1024

  /** What a write of n bytes returns: the number it took, or -1. */
  ghost predicate Takes(socket: (nat, nat) -> int) {
    forall k, n :: -1 <= socket(k, n) <= n
  }

  /** A socket that takes all it is given. */
  ghost predicate TakesAll(socket: (nat, nat) -> int) {
    forall k, n :: socket(k, n) == n
  }

  /** A socket that takes nothing more, its other end being gone. */
  ghost predicate Fails(socket: (nat, nat) -> int) {
    forall k, n :: socket(k, n) == -1
  }

  /** How many bytes the writes took, of which the k-th asked for asked[k] bytes. */
  function Taken(socket: (nat, nat) -> int, asked: seq<nat>): nat
    decreases |asked|
  {
    if asked == [] then 0
    else
      var k := |asked| - 1;
      var n := socket(k, asked[k]);
      Taken(socket, asked[..k]) + if n > 0 then n else 0
  }

  /** Every write took something, and together not yet too much for one turn of the event loop. */
  ghost predicate Going(socket: (nat, nat) -> int, asked: seq<nat>, overMemory: bool) {
    && (forall k :: 0 <= k < |asked| ==> asked[k] > 0 && socket(k, asked[k]) > 0)
    && (Taken(socket, asked) <= MAX_WRITE || overMemory)
  }

  /** The last write is one behind which sending stops: nothing was taken, or enough for this turn. */
  ghost predicate Stops(socket: (nat, nat) -> int, asked: seq<nat>, overMemory: bool) {
    asked != [] &&
    var k := |asked| - 1;
    && Going(socket, asked[..k], overMemory) && asked[k] > 0
    && (socket(k, asked[k]) <= 0 || (Taken(socket, asked) > MAX_WRITE && !overMemory))
  }

  /** Sending ends when the queue is drained, or behind such a write. */
  ghost predicate Ends(socket: (nat, nat) -> int, asked: seq<nat>, overMemory: bool, drained: bool) {
    (Going(socket, asked, overMemory) && drained) || Stops(socket, asked, overMemory)
  }

  /** The last write returned -1. */
  predicate Broke(socket: (nat, nat) -> int, asked: seq<nat>) {
    asked != [] && socket(|asked| - 1, asked[|asked| - 1]) == -1
  }

  lemma GoingTakes(socket: (nat, nat) -> int, asked: seq<nat>, overMemory: bool)
    requires Fails(socket)
    ensures Going(socket, asked, overMemory) ==> asked == []
  {
    if asked != [] { var first := socket(0, asked[0]); }
  }

  /** If nothing at all is taken, the first write fails. */
  lemma NothingTaken(socket: (nat, nat) -> int, asked: seq<nat>, overMemory: bool)
    requires Fails(socket)
    ensures Going(socket, asked, overMemory) || Stops(socket, asked, overMemory) ==>
      Taken(socket, asked) == 0 && (asked == [] || Broke(socket, asked))
  {
    GoingTakes(socket, asked, overMemory);
    if asked != [] { GoingTakes(socket, asked[..|asked| - 1], overMemory); }
  }

  /** If all is taken, sending stops early only behind more than one turn's share. */
  lemma AllTaken(socket: (nat, nat) -> int, asked: seq<nat>, overMemory: bool)
    requires TakesAll(socket)
    ensures Stops(socket, asked, overMemory) ==> Taken(socket, asked) > MAX_WRITE && !overMemory
    ensures !Broke(socket, asked)
  {
    if asked != [] { var last := socket(|asked| - 1, asked[|asked| - 1]); }
  }

  /** One write more. */
  lemma WroteMore(socket: (nat, nat) -> int, asked: seq<nat>, n: nat, overMemory: bool)
    requires Going(socket, asked, overMemory) && n > 0
    ensures var r := socket(|asked|, n); var total := Taken(socket, asked) + (if r > 0 then r else 0);
      && Taken(socket, asked + [n]) == total
      && (if r <= 0 || (total > MAX_WRITE && !overMemory) then Stops(socket, asked + [n], overMemory)
          else Going(socket, asked + [n], overMemory))
      && (Broke(socket, asked + [n]) <==> r == -1)
  {
    assert (asked + [n])[..|asked|] == asked;
    TakenMore(socket, asked, n);
  }

  lemma TakenMore(socket: (nat, nat) -> int, asked: seq<nat>, n: nat)
    ensures var r := socket(|asked|, n);
      Taken(socket, asked + [n]) == Taken(socket, asked) + (if r > 0 then r else 0)
  {
    assert (asked + [n])[..|asked|] == asked;
  }

  class Client {
    const size: Text -> nat
    const buf: array<Byte>
    var bufpos: nat
    var sentlen: nat
    var reply: seq<Node>
    var replyBytes: nat
    var nextNode: nat
    var closeAfterReply: bool
    var writeHandler: bool
    var freed: bool
    /** All that the socket took, all that was accepted, and the number of empty nodes removed so far. */
    ghost var written: Text
    ghost var accepted: seq<Sym>
    ghost var dropped: nat

    function State(): (o: Out)
      requires bufpos <= buf.Length
      reads this, buf
    {
      Out(buf[..bufpos], sentlen, reply)
    }

    /** What was written and what is still to be sent make up what was accepted; reply_bytes is the
        memory of the list and that of every empty node removed so far; whoever has something to send
        has a write handler. */
    ghost predicate Valid()
      reads this, buf
    {
      && buf.Length == CHUNK && bufpos <= CHUNK
      && Sound(State(), written, accepted, nextNode)
      && replyBytes == Total(size, reply) + Times(dropped, size([]))
      && (bufpos > 0 || reply != [] ==> writeHandler)
    }

    constructor (size: Text -> nat)
      ensures Valid() && fresh(buf) && this.size == size
      ensures accepted == [] && written == [] && dropped == 0 && !closeAfterReply && !freed && !writeHandler
      ensures State() == Out([], 0, []) && nextNode == 0
    {
      this.size := size;
      buf := new Byte[CHUNK];
      bufpos, sentlen, reply, replyBytes, nextNode := 0, 0, [], 0, 0;
      closeAfterReply, writeHandler, freed := false, false, false;
      written, accepted, dropped := [], [], 0;
      new;
      assert State() == Out([], 0, []);
    }

    /** prepareClientToWrite, for a client on a socket: the write handler is installed when there
        was nothing to send before. */
    method PrepareToWrite(installs: bool) returns (ok: bool)
      requires Valid()
      modifies this`writeHandler
      ensures Valid() && (ok ==> writeHandler)
      ensures ok <==> installs || bufpos > 0 || reply != []
    {
      if bufpos == 0 && |reply| == 0 {
        if !installs { return false; }
        writeHandler := true;
      }
      return true;
    }

    /** _addReplyToBuffer. */
    method AddToBuffer(s: Text) returns (ok: bool)
      requires Valid() && writeHandler
      modifies this`bufpos, this`accepted, buf
      ensures Valid() && written == old(written)
      ensures closeAfterReply ==> ok
      ensures accepted == if ok && !closeAfterReply then old(accepted) + Syms(s) else old(accepted)
      ensures !ok <==> !closeAfterReply && (reply != [] || |s| > CHUNK - old(bufpos))
      ensures State() == if ok && !closeAfterReply then old(State()).(buf := old(buf[..bufpos]) + s) else old(State())
    {
      if closeAfterReply { return true; }
      if |reply| > 0 { return false; }
      if |s| > buf.Length - bufpos { return false; }
      SoundBuffer(State(), written, accepted, nextNode, s);
      CopyToBuffer(s);
      accepted := accepted + Syms(s);
      return true;
    }

    method CopyToBuffer(s: Text)
      requires bufpos + |s| <= buf.Length
      modifies this`bufpos, buf
      ensures bufpos <= buf.Length && State() == old(State()).(buf := old(buf[..bufpos]) + s)
    {
      ghost var before := buf[..bufpos];
      forall i | 0 <= i < |s| { buf[bufpos + i] := s[i]; }
      bufpos := bufpos + |s|;
      assert buf[..bufpos] == before + s;
    }

    /** _addReplyStringToList, _addReplySdsToList and _addReplyObjectToList. */
    method AddToList(s: Text)
      requires Valid() && writeHandler
      modifies this`reply, this`replyBytes, this`nextNode, this`accepted
      ensures Valid() && written == old(written)
      ensures accepted == if closeAfterReply then old(accepted) else old(accepted) + Syms(s)
      ensures State() == if closeAfterReply then old(State())
                         else old(State()).(reply := Added(old(reply), old(nextNode), s))
    {
      if closeAfterReply { return; }
      SoundList(State(), written, accepted, nextNode, s);
      AddedTotal(size, reply, nextNode, s);
      CostsTotal(size, reply);
      AppendToList(s);
      accepted := accepted + Syms(s);
    }

    method AppendToList(s: Text)
      requires forall i :: 0 <= i < |reply| ==> replyBytes >= Cost(size, reply[i])
      modifies this`reply, this`replyBytes, this`nextNode
      ensures reply == Added(old(reply), old(nextNode), s) && nextNode == old(nextNode) + 1
      ensures replyBytes == old(replyBytes) + AddedCost(size, old(reply), s)
    {
      if |reply| == 0 {
        reply := [Node(nextNode, Some(s))];
        replyBytes := replyBytes + size(s);
      } else {
        var tail := reply[|reply| - 1];
        if tail.text.Some? && |tail.text.value| + |s| <= CHUNK {
          replyBytes := replyBytes - size(tail.text.value);
          reply := reply[..|reply| - 1] + [Node(tail.id, Some(tail.text.value + s))];
          replyBytes := replyBytes + size(tail.text.value + s);
        } else {
          reply := reply + [Node(nextNode, Some(s))];
          replyBytes := replyBytes + size(s);
        }
      }
      nextNode := nextNode + 1;
    }

    /** Into the buffer if there is room and no list yet, else into the list. */
    method Enqueue(s: Text)
      requires Valid() && writeHandler
      modifies this`bufpos, this`reply, this`replyBytes, this`nextNode, this`accepted, buf
      ensures Valid() && written == old(written)
      ensures accepted == if closeAfterReply then old(accepted) else old(accepted) + Syms(s)
      ensures State() == if closeAfterReply then old(State()) else Queued(old(State()), old(nextNode), s)
    {
      var ok := AddToBuffer(s);
      if !ok { AddToList(s); }
    }

    /** Replies are not taken: the client is closing, or no write handler can be installed. */
    predicate Refuses(installs: bool)
      reads this
    {
      closeAfterReply || (!installs && bufpos == 0 && reply == [])
    }

    /** addReply, addReplySds and addReplyString. */
    method AddReply(s: Text, installs: bool)
      requires Valid()
      modifies this`writeHandler, this`bufpos, this`reply, this`replyBytes, this`nextNode, this`accepted, buf
      ensures Valid() && written == old(written) && dropped == old(dropped)
      ensures accepted == if old(Refuses(installs)) then old(accepted) else old(accepted) + Syms(s)
      ensures State() == if old(Refuses(installs)) then old(State()) else Queued(old(State()), old(nextNode), s)
    {
      var ok := PrepareToWrite(installs);
      if ok { Enqueue(s); }
    }

    /** The node is in the list and still has no string. */
    predicate Awaits(id: nat)
      reads this
    {
      Node(id, None) in reply
    }

    /** addDeferredMultiBulkLength: a node whose string is not known yet. */
    method AddDeferred(installs: bool) returns (node: Option<nat>)
      requires Valid()
      modifies this`reply, this`nextNode, this`writeHandler, this`accepted
      ensures Valid() && written == old(written)
      ensures node.None? ==> accepted == old(accepted)
      ensures node.Some? ==> Awaits(node.value) && accepted == old(accepted) + [Hole(node.value)]
      ensures node.Some? <==> installs || bufpos > 0 || old(reply) != []
    {
      var ok := PrepareToWrite(installs);
      if !ok { return None; }
      SoundHole(State(), written, accepted, nextNode);
      HoleTotal(size, reply, nextNode);
      node := AppendHole();
    }

    method AppendHole() returns (node: Option<nat>)
      modifies this`reply, this`nextNode, this`accepted
      ensures reply == old(reply) + [Node(old(nextNode), None)] && nextNode == old(nextNode) + 1
      ensures accepted == old(accepted) + [Hole(old(nextNode))] && node == Some(old(nextNode)) && Awaits(node.value)
    {
      reply := reply + [Node(nextNode, None)];
      assert reply[|reply| - 1] == Node(nextNode, None);
      node := Some(nextNode);
      accepted := accepted + [Hole(nextNode)];
      nextNode := nextNode + 1;
    }

    /** setDeferredMultiBulkLength: the length takes its place, wherever later replies went. */
    method SetDeferred(node: Option<nat>, length: nat)
      requires Valid() && (node.Some? ==> Awaits(node.value))
      modifies this`reply, this`replyBytes, this`accepted
      ensures Valid() && written == old(written)
      ensures accepted == if node.None? then old(accepted) else Fill(old(accepted), node.value, Header(STAR, length))
      ensures forall id: nat :: old(Awaits(id)) && node != Some(id) ==> Awaits(id)
    {
      if node.None? { return; }
      var k := Position(node.value);
      var len := Header(STAR, length);
      SoundFilled(State(), written, accepted, nextNode, k, len);
      FilledTotal(size, reply, k, len);
      CostsTotal(size, reply);
      OthersAwait(reply, k, len);
      FillNode(k, len);
      accepted := Fill(accepted, node.value, len);
    }

    method Position(id: nat) returns (k: nat)
      requires Awaits(id)
      ensures k < |reply| && reply[k] == Node(id, None)
    {
      k := 0;
      while reply[k] != Node(id, None)
        invariant k < |reply| && Node(id, None) in reply[k..]
        decreases |reply| - k
      {
        k := k + 1;
      }
    }

    method FillNode(k: nat, len: Text)
      requires k < |reply| && reply[k].text.None?
      requires forall i :: 0 <= i < |reply| ==> replyBytes >= Cost(size, reply[i])
      modifies this`reply, this`replyBytes
      ensures reply == Filled(old(reply), k, len)
      ensures replyBytes == old(replyBytes) + FilledCost(size, old(reply), k, len)
    {
      replyBytes := replyBytes + size(len);
      if k + 1 < |reply| && reply[k + 1].text.Some? {
        var next := reply[k + 1].text.value;
        replyBytes := replyBytes - size(len);
        replyBytes := replyBytes - size(next);
        reply := reply[..k] + ([Node(reply[k].id, Some(len + next))] + reply[k + 2..]);
        replyBytes := replyBytes + size(len + next);
      } else {
        reply := reply[..k] + ([Node(reply[k].id, Some(len))] + reply[k + 1..]);
      }
    }

    // ----- sending

    /** No length is outstanding, as is so whenever the event loop runs. */
    predicate Settled()
      reads this
    {
      forall i :: 0 <= i < |reply| ==> reply[i].text.Some?
    }

    /** What the queue and the written text will be once the socket has taken n more bytes. */
    lemma SoundAhead(n: nat)
      requires Valid() && 0 < n && sentlen + n <= |Head(State())|
      ensures Sound(Advanced(State(), n), written + Head(State())[sentlen..sentlen + n], accepted, nextNode)
    {
      SoundSent(State(), written, accepted, nextNode, n);
    }

    lemma StillValid(o: Out, w: Text)
      requires buf.Length == CHUNK && bufpos <= CHUNK && State() == o && written == w
      requires Sound(o, w, accepted, nextNode) && (bufpos > 0 || reply != [] ==> writeHandler)
      requires replyBytes == Total(size, reply) + Times(dropped, size([]))
      ensures Valid()
    {
    }

    /** The socket has taken n bytes of the buffer. */
    method SentFromBuffer(n: nat)
      requires Valid() && bufpos > 0 && 0 < n <= bufpos - sentlen
      modifies this`bufpos, this`sentlen, this`written
      ensures Valid() && accepted == old(accepted)
      ensures written == old(written) + old(buf[sentlen..sentlen + n])
    {
      assert Head(State()) == buf[..bufpos];
      ghost var part := Head(State())[sentlen..sentlen + n];
      assert part == buf[sentlen..sentlen + n];
      SoundAhead(n);
      ghost var o, w := Advanced(State(), n), written + part;
      TakeFromBuffer(n, o, w);
      StillValid(o, w);
    }

    method TakeFromBuffer(n: nat, ghost o: Out, ghost w: Text)
      requires 0 < bufpos <= buf.Length && 0 < n <= bufpos - sentlen
      requires o == Advanced(State(), n) && w == written + buf[sentlen..sentlen + n]
      modifies this`bufpos, this`sentlen, this`written
      ensures bufpos <= old(bufpos) && State() == o && written == w
    {
      written := written + buf[sentlen..sentlen + n];
      sentlen := sentlen + n;
      if sentlen == bufpos {
        bufpos := 0;
        sentlen := 0;
      }
    }

    /** The socket has taken n bytes of the first node. */
    method SentFromList(n: nat)
      requires Valid() && bufpos == 0 && reply != [] && reply[0].text.Some?
      requires 0 < n <= |reply[0].text.value| - sentlen
      modifies this`reply, this`sentlen, this`replyBytes, this`written
      ensures Valid() && accepted == old(accepted)
      ensures written == old(written) + old(reply[0].text.value[sentlen..sentlen + n])
      ensures reply == old(reply) || reply == old(reply[1..])
    {
      assert Head(State()) == reply[0].text.value;
      SoundAhead(n);
      ghost var o, w := Advanced(State(), n), written + Head(State())[sentlen..sentlen + n];
      TakeFromList(n, o, w);
      StillValid(o, w);
    }

    method TakeFromList(n: nat, ghost o: Out, ghost w: Text)
      requires bufpos == 0 && reply != [] && reply[0].text.Some? && replyBytes >= Total(size, reply)
      requires 0 < n <= |reply[0].text.value| - sentlen
      requires o == Advanced(State(), n) && w == written + reply[0].text.value[sentlen..sentlen + n]
      modifies this`reply, this`sentlen, this`replyBytes, this`written
      ensures State() == o && written == w
      ensures reply == old(reply) || reply == old(reply[1..])
      ensures replyBytes - Total(size, reply) == old(replyBytes) - Total(size, old(reply))
    {
      assert State() == Out([], sentlen, reply);
      written := written + reply[0].text.value[sentlen..sentlen + n];
      AdvanceList(n);
      assert State() == Out([], sentlen, reply);
    }

    method AdvanceList(n: nat)
      requires reply != [] && reply[0].text.Some? && replyBytes >= Total(size, reply)
      modifies this`reply, this`sentlen, this`replyBytes
      ensures Out([], sentlen, reply) == Advanced(Out([], old(sentlen), old(reply)), n)
      ensures reply == old(reply) || reply == old(reply)[1..]
      ensures replyBytes - Total(size, reply) == old(replyBytes) - Total(size, old(reply))
    {
      var first := reply[0].text.value;
      AdvancedInList(Out([], sentlen, reply), n);
      sentlen := sentlen + n;
      if sentlen == |first| {
        reply := reply[1..];
        sentlen := 0;
        replyBytes := replyBytes - size(first);
      }
    }

    /** An empty node is dropped; what it cost stays in reply_bytes. */
    method DropEmpty()
      requires Valid() && bufpos == 0 && reply != [] && reply[0].text == Some([])
      modifies this`reply, this`dropped
      ensures Valid() && accepted == old(accepted) && written == old(written)
      ensures reply == old(reply[1..]) && dropped == old(dropped) + 1
    {
      ghost var o := State();
      SoundDropped(o, written, accepted, nextNode);
      dropped := dropped + 1;
      reply := reply[1..];
      assert State() == Next(o);
    }

    /** Something of the chunk in front is left to write. */
    lemma BufferLeft()
      requires Valid() && bufpos > 0
      ensures sentlen < bufpos
    {
      assert Head(State()) == buf[..bufpos];
    }

    lemma NodeLeft()
      requires Valid() && bufpos == 0 && reply != [] && reply[0].text.Some? && reply[0].text.value != []
      ensures sentlen < |reply[0].text.value|
    {
      assert Head(State()) == reply[0].text.value;
    }

    /** A write from the buffer; n is what it asks for. */
    method WriteBuffer(socket: (nat, nat) -> int, k: nat) returns (nwritten: int, ghost n: nat)
      requires Valid() && Takes(socket) && bufpos > 0
      modifies this`bufpos, this`sentlen, this`written
      ensures Valid() && accepted == old(accepted) && old(written) <= written
      ensures |written| == |old(written)| + (if nwritten > 0 then nwritten else 0)
      ensures n > 0 && nwritten == socket(k, n) >= -1 && (nwritten <= 0 ==> bufpos == old(bufpos))
    {
      BufferLeft();
      n := bufpos - sentlen;
      nwritten := socket(k, bufpos - sentlen);
      if nwritten > 0 { SentFromBuffer(nwritten); }
    }

    /** A write from the first node. */
    method WriteNode(socket: (nat, nat) -> int, k: nat) returns (nwritten: int, ghost n: nat)
      requires Valid() && Takes(socket) && bufpos == 0
      requires reply != [] && reply[0].text.Some? && reply[0].text.value != []
      modifies this`reply, this`sentlen, this`replyBytes, this`written
      ensures Valid() && accepted == old(accepted) && old(written) <= written
      ensures |written| == |old(written)| + (if nwritten > 0 then nwritten else 0)
      ensures n > 0 && nwritten == socket(k, n) >= -1 && (nwritten <= 0 ==> reply == old(reply))
      ensures reply == old(reply) || reply == old(reply[1..])
    {
      NodeLeft();
      n := |reply[0].text.value| - sentlen;
      nwritten := socket(k, |reply[0].text.value| - sentlen);
      if nwritten > 0 { SentFromList(nwritten); }
    }

    /** One turn of the loop: a write from the first chunk, or the removal of an empty node. */
    method SendChunk(socket: (nat, nat) -> int, k: nat) returns (nwritten: int, ghost n: nat)
      requires Valid() && Settled() && Takes(socket) && (bufpos > 0 || reply != [])
      modifies this`bufpos, this`sentlen, this`reply, this`replyBytes, this`written, this`dropped
      ensures Valid() && Settled() && accepted == old(accepted)
      ensures old(written) <= written && |written| == |old(written)| + (if nwritten > 0 then nwritten else 0)
      ensures old(bufpos) == 0 && old(reply[0].text) == Some([]) ==> nwritten == 0 && |reply| < |old(reply)|
      ensures (old(bufpos) > 0 || old(reply[0].text) != Some([])) && nwritten <= 0 ==>
                reply == old(reply) && bufpos == old(bufpos)
      ensures old(bufpos) > 0 || old(reply[0].text) != Some([]) ==> n > 0 && nwritten == socket(k, n) >= -1
      ensures dropped + Empties(reply) == old(dropped) + Empties(old(reply))
    {
      if bufpos > 0 {
        nwritten, n := WriteBuffer(socket, k);
      } else if |reply[0].text.value| == 0 {
        DropEmpty();
        nwritten, n := 0, 0;
      } else {
        nwritten, n := WriteNode(socket, k);
      }
    }

    lemma UnsentLeft()
      requires Valid()
      ensures |written| + |Unsent(State())| == |accepted|
    {
    }

    /** The loop of sendReplyToClient; nwritten is what the last write returned. */
    method SendQueue(socket: (nat, nat) -> int, overMemory: bool) returns (nwritten: int, ghost asked: seq<nat>)
      requires Valid() && Settled() && Takes(socket)
      modifies this`bufpos, this`sentlen, this`reply, this`replyBytes, this`written, this`dropped
      ensures Valid() && Settled() && accepted == old(accepted) && old(written) <= written
      ensures dropped + Empties(reply) == old(dropped) + Empties(old(reply))
      ensures |written| == |old(written)| + Taken(socket, asked)
      ensures Ends(socket, asked, overMemory, bufpos == 0 && reply == [])
      ensures nwritten == -1 <==> Broke(socket, asked)
      ensures Broke(socket, asked) ==> bufpos > 0 || reply != []
    {
      UnsentLeft();
      nwritten, asked := 0, [];
      var total, k := 0, 0;
      while bufpos > 0 || |reply| > 0
        invariant Valid() && Settled() && accepted == old(accepted) && old(written) <= written
        invariant nwritten >= 0 && total == |written| - |old(written)| == Taken(socket, asked) && k == |asked|
        invariant Going(socket, asked, overMemory) && !Broke(socket, asked)
        invariant dropped + Empties(reply) == old(dropped) + Empties(old(reply))
        decreases |accepted| - |written|, |reply|
      {
        var empty := bufpos == 0 && reply[0].text == Some([]);
        ghost var n;
        nwritten, n := SendChunk(socket, k);
        UnsentLeft();
        if !empty {
          WroteMore(socket, asked, n, overMemory);
          asked := asked + [n];
          if nwritten <= 0 { break; }
          total := total + nwritten;
          k := k + 1;
          if total > MAX_WRITE && !overMemory { break; }
        }
      }
    }

    /** What a turn has done, told by its writes, by how much was written before it, and by whether the client
        was freed and waited for the socket: all writes but the last took something, and sending ended when
        the queue was empty, when a write took nothing or when this turn had sent enough. The client is freed
        if and only if a write failed for good, or nothing is left and it was to be closed then. */
    ghost predicate Turned(socket: (nat, nat) -> int, again: bool, overMemory: bool, asked: seq<nat>,
                           before: nat, freed0: bool, handler0: bool)
      reads this
    {
      && |written| == before + Taken(socket, asked)
      && Ends(socket, asked, overMemory, bufpos == 0 && reply == [])
      && (freed <==> freed0 || (Broke(socket, asked) && !again) || (closeAfterReply && bufpos == 0 && reply == []))
      && (writeHandler <==> handler0 && (bufpos > 0 || reply != []))
    }

    method SendTurn(socket: (nat, nat) -> int, again: bool, overMemory: bool) returns (ghost asked: seq<nat>)
      requires Valid() && Settled() && Takes(socket)
      modifies this`bufpos, this`sentlen, this`reply, this`replyBytes, this`written, this`dropped,
        this`writeHandler, this`freed
      ensures Valid() && Settled() && accepted == old(accepted) && old(written) <= written
      ensures Turned(socket, again, overMemory, asked, |old(written)|, old(freed), old(writeHandler))
      ensures dropped + Empties(reply) == old(dropped) + Empties(old(reply))
    {
      ghost var before, freed0, handler0 := |written|, freed, writeHandler;
      var nwritten;
      nwritten, asked := SendQueue(socket, overMemory);
      FinishSend(nwritten == -1 && !again);
      TurnedIs(socket, again, overMemory, asked, before, freed0, handler0);
    }

    lemma TurnedIs(socket: (nat, nat) -> int, again: bool, overMemory: bool, asked: seq<nat>,
                   before: nat, freed0: bool, handler0: bool)
      requires |written| == before + Taken(socket, asked)
      requires Ends(socket, asked, overMemory, bufpos == 0 && reply == [])
      requires freed == (freed0 || (Broke(socket, asked) && !again) || (bufpos == 0 && reply == [] && closeAfterReply))
      requires writeHandler == (handler0 && (bufpos > 0 || reply != []))
      ensures Turned(socket, again, overMemory, asked, before, freed0, handler0)
    {
    }

    /** sendReplyToClient. The k-th write asks for asked[k] bytes. */
    method SendReply(socket: (nat, nat) -> int, again: bool, overMemory: bool) returns (ghost asked: seq<nat>)
      requires Valid() && Settled() && Takes(socket)
      modifies this`bufpos, this`sentlen, this`reply, this`replyBytes, this`written, this`dropped,
        this`writeHandler, this`freed
      ensures Valid() && Settled() && accepted == old(accepted) && old(written) <= written
      ensures Turned(socket, again, overMemory, asked, |old(written)|, old(freed), old(writeHandler))
      ensures dropped + Empties(reply) == old(dropped) + Empties(old(reply))
      ensures Outcome(socket, again, overMemory, |Unsent(old(State()))|)
    {
      ghost var unsent := |Unsent(State())|;
      UnsentLeft();
      asked := SendTurn(socket, again, overMemory);
      UnsentLeft();
      OutcomeIs(socket, again, overMemory, unsent, asked);
    }

    /** How it comes out, when `unsent` bytes were to be sent, for a socket that takes all it is given and
        for one that takes nothing. */
    ghost predicate Outcome(socket: (nat, nat) -> int, again: bool, overMemory: bool, unsent: nat)
      reads this, buf
    {
      && bufpos <= buf.Length
      && (TakesAll(socket) ==> Drained() || (unsent > |Unsent(State())| + MAX_WRITE && !overMemory))
      && (Fails(socket) && !again && unsent > 0 ==> freed)
    }

    lemma OutcomeIs(socket: (nat, nat) -> int, again: bool, overMemory: bool, unsent: nat, asked: seq<nat>)
      requires Valid() && unsent == |Unsent(State())| + Taken(socket, asked)
      requires Ends(socket, asked, overMemory, Drained())
      requires Broke(socket, asked) && !again ==> freed
      ensures Outcome(socket, again, overMemory, unsent)
    {
      if TakesAll(socket) { AllTaken(socket, asked, overMemory); }
      if Fails(socket) {
        NothingTaken(socket, asked, overMemory);
        if Drained() { AllWritten(); }
      }
    }

    /** Nothing is left to send, and nobody waits for the socket. */
    predicate Drained()
      reads this
    {
      bufpos == 0 && reply == [] && !writeHandler
    }

    lemma AllWritten()
      requires Valid() && Drained()
      ensures accepted == Syms(written)
    {
      assert Unsent(State()) == [];
      assert Syms(written) + [] == Syms(written);
    }

    /** reply_bytes is the memory of the list exactly as long as no empty node was removed, unless an
        empty string takes none. */
    lemma AccountIsRight()
      requires Valid()
      ensures replyBytes == Total(size, reply) <==> dropped == 0 || size([]) == 0
    {
      TimesZero(dropped, size([]));
    }

    /** After the loop: a broken connection is freed, and an empty queue needs no write handler. */
    method FinishSend(broken: bool)
      requires Valid() && (broken ==> bufpos > 0 || reply != [])
      modifies this`sentlen, this`writeHandler, this`freed
      ensures Valid() && writeHandler == (old(writeHandler) && (bufpos > 0 || reply != []))
      ensures freed == (old(freed) || broken || (bufpos == 0 && reply == [] && closeAfterReply))
    {
      if broken {
        freed := true;
        return;
      }
      if bufpos == 0 && |reply| == 0 {
        sentlen := 0;
        writeHandler := false;
        if closeAfterReply { freed := true; }
      }
    }
  }

  /** A client that comes to an empty node: a reply too long for the buffer, and an empty one behind
      it. Once both are sent, the list is empty and reply_bytes is not zero. */
  method LongAndEmptyReply(size: Text -> nat, s: Text) returns (c: Client)
    requires |s| > CHUNK && size([]) > 0
    ensures fresh(c) && c.Valid() && c.Drained() && Total(size, c.reply) == 0 && c.size == size
    ensures c.written == s && c.replyBytes == size([]) > 0
  {
    c := LongThenEmpty(size, s);
    ghost var _ := c.SendReply((k, n) => n, false, true);
    assert Empties([]) == 0 && Times(1, size([])) == size([]);
    c.AllWritten();
    SymsInjective(c.written, s);
  }

  /** Before it is sent. */
  method LongThenEmpty(size: Text -> nat, s: Text) returns (c: Client)
    requires |s| > CHUNK
    ensures fresh(c) && fresh(c.buf) && c.Valid() && c.Settled() && c.size == size && c.written == []
    ensures !c.closeAfterReply
    ensures c.accepted == Syms(s) && c.dropped == 0 && Empties(c.reply) == 1 && c.writeHandler
  {
    c := new Client(size);
    c.AddReply(s, true);
    ghost var n := c.nextNode;
    c.AddReply([], true);
    LongQueued(s, n);
    assert c.reply == c.State().reply == [Node(0, Some(s)), Node(n, Some([]))];
    TwoNodes(c.reply);
    assert Syms(s) + Syms([]) == Syms(s) && [] + Syms(s) == Syms(s);
  }

  /** Such a reply goes to the list, and an empty one does not fit behind it. */
  lemma LongQueued(s: Text, n: nat)
    requires |s| > CHUNK
    ensures Queued(Queued(Out([], 0, []), 0, s), n, []) == Out([], 0, [Node(0, Some(s)), Node(n, Some([]))])
  {
    var one := [Node(0, Some(s))];
    assert Queued(Out([], 0, []), 0, s) == Out([], 0, one);
    assert one + [Node(n, Some([]))] == [Node(0, Some(s)), Node(n, Some([]))];
  }

  lemma TwoNodes(reply: seq<Node>)
    requires |reply| == 2 && reply[0].text.Some? && reply[0].text != Some([]) && reply[1].text == Some([])
    ensures Empties(reply) == 1
  {
    var rest := reply[1..];
    assert rest[1..] == [] && rest[0].text == Some([]);
    assert Empties(rest) == 1 + Empties(rest[1..]) == 1;
  }

  lemma SymsInjective(a: Text, b: Text)
    requires Syms(a) == Syms(b)
    ensures a == b
  {
    assert |a| == |Syms(a)| == |b|;
    forall i | 0 <= i < |a| ensures a[i] == b[i] {
      assert Syms(a)[i] == Sent(a[i]) && Syms(b)[i] == Sent(b[i]);
    }
    assert a == b;
  }

  /** Filling one node leaves the other outstanding ones in the list. */
  lemma OthersAwait(reply: seq<Node>, k: nat, t: Text)
    requires k < |reply|
    ensures forall n :: n in reply && n.text.None? && n != reply[k] ==> n in Filled(reply, k, t)
  {
  }
}
