/** The request parser of networking.c on values: what each buffer makes of the bytes it holds. */
module RespParser {
  import opened Options
  import opened Bytes
  import opened Resp

  const INLINE_MAX := 64 * 1024
  const BIG_ARG := 32 * 1024
  const IOBUF := 16 * 1024
  const MAX_ARGS := 1024 * 1024
  const MAX_BULK := 512 * 1024 * 1024

  /** strchr: the first b in s, but none behind a zero byte; -1 if there is none. */
  function Find(s: Text, b: Byte): (k: int)
    ensures -1 <= k < |s|
    decreases s
  {
    if s == [] || s[0] == 0 then -1
    else if s[0] == b then 0
    else var k := Find(s[1..], b); if k < 0 then -1 else k + 1
  }

  lemma {:induction false} FindAt(u: Text, b: Byte, rest: Text)
    requires b != 0 && forall i :: 0 <= i < |u| ==> u[i] != b && u[i] != 0
    ensures Find(u + ([b] + rest), b) == |u| && Find(u, b) == -1
  {
    if u == [] {
      assert u + ([b] + rest) == [b] + rest;
    } else {
      assert (u + ([b] + rest))[1..] == u[1..] + ([b] + rest);
      FindAt(u[1..], b, rest);
    }
  }

  // ----- the parser on a buffer

  /** Ready: a whole request. More: wait for more bytes. TooBig: a header line does not end and the
      buffer is over its limit. Malformed: any other protocol error. */
  datatype Status = Ready | More | TooBig | Malformed

  /** The buffer is what was consumed but not yet cut off, and the rest; then how many arguments are
      still to come, the length of the next one or -1 while it is not known, and those read. */
  datatype Parse = Parse(status: Status, before: Text, rest: Text, left: nat, len: int, argv: Argv)
  {
    /** What stays in the buffer when the parser returns. */
    function Kept(): Text { if status == TooBig then before + rest else rest }
  }

  /** processMultibulkBuffer from the point where the number of arguments is known. */
  function Args(before: Text, s: Text, left: nat, len: int, argv: Argv): (p: Parse)
    ensures |p.rest| <= |s| && (p.status == Ready && left > 0 ==> |p.rest| < |s|)
    ensures p.len >= -1 && (p.status == More ==> p.left > 0) && (p.status == Ready ==> p.left == 0 && p.len == -1)
    decreases left, if len < 0 then 1 else 0
  {
    if left == 0 then Parse(Ready, before, s, 0, -1, argv)
    else if len < 0 then
      var nl := Find(s, CR);
      if nl < 0 then Parse(if |before| + |s| > INLINE_MAX then TooBig else More, before, s, left, -1, argv)
      else if nl > |s| - 2 then Parse(More, before, s, left, -1, argv)
      else if s[0] != DOLLAR then Parse(Malformed, before, s, left, -1, argv)
      else
        var n := BulkLength(s[1..nl]);
        if n < 0 then Parse(Malformed, before, s, left, -1, argv)
        else Args(if n >= BIG_ARG then [] else before + s[..nl + 2], s[nl + 2..], left, n, argv)
    else if |s| < len + 2 then Parse(More, before, s, left, len, argv)
    else
      Args(AfterBulk(before, s, len), s[len + 2..], left - 1, -1, argv + [s[..len]])
  }

  /** A buffer that is just one big argument becomes the argument, and a new buffer is begun. */
  function AfterBulk(before: Text, s: Text, len: int): (r: Text)
    requires 0 <= len && len + 2 <= |s|
    ensures |r| <= |before| + (len + 2)
  {
    if before == [] && len >= BIG_ARG && |s| == len + 2 then [] else before + s[..len + 2]
  }

  /** The length in a bulk header, -1 when it is no number or out of range. */
  function BulkLength(line: Text): (n: int)
    ensures -1 <= n <= MAX_BULK
  {
    var v := Number(line);
    if v.None? || v.value < 0 || v.value > MAX_BULK then -1 else v.value
  }

  /** processMultibulkBuffer from the start of a request. */
  function Count(s: Text): (p: Parse)
    ensures p.status == Ready ==> |p.rest| < |s|
  {
    var nl := Find(s, CR);
    if nl < 0 then Parse(if |s| > INLINE_MAX then TooBig else More, [], s, 0, -1, [])
    else if nl > |s| - 2 || nl == 0 then Parse(More, [], s, 0, -1, [])
    else
      var n := Number(s[1..nl]);
      if n.None? || n.value > MAX_ARGS then Parse(Malformed, [], s, 0, -1, [])
      else if n.value <= 0 then Parse(Ready, [], s[nl + 2..], 0, -1, [])
      else Args(s[..nl + 2], s[nl + 2..], n.value, -1, [])
  }

  // ----- the client

  datatype Kind = Unknown | Multibulk | Inline

  /** What executing a command does to its client: nothing, suspend it, or ask to close it. */
  datatype Control = Continue | Block | Quit

  datatype Client = Client(
    buf: Text, kind: Kind, left: nat, len: int, argv: Argv,
    closing: bool, blocked: bool,
    done: seq<Argv>)

  /** Outside calls: how inline requests are split, and what commands do to their client. */
  datatype Env = Env(split: Text -> Option<Argv>, control: Argv -> Control)

  function NonEmptyArgs(argv: Argv): Argv {
    if argv == [] then [] else (if argv[0] == [] then [] else [argv[0]]) + NonEmptyArgs(argv[1..])
  }

  /** An inline request whose first line feed is at nl. What is cut off is two bytes longer than
      the line even when the line ends with a line feed alone. */
  function LineAt(env: Env, s: Text, nl: nat): (p: Parse)
    requires nl < |s|
    ensures p.status == Ready ==> |p.rest| < |s|
  {
    var n := if nl > 0 && s[nl - 1] == CR then nl - 1 else nl;
    match env.split(s[..n])
    case None => Parse(Malformed, [], s, 0, -1, [])
    case Some(argv) => Parse(Ready, [], if n + 2 <= |s| then s[n + 2..] else [], 0, -1, NonEmptyArgs(argv))
  }

  /** processInlineBuffer. */
  function InlineLine(env: Env, s: Text): (p: Parse)
    ensures p.status == Ready ==> |p.rest| < |s|
  {
    var nl := Find(s, LF);
    if nl < 0 then Parse(if |s| > INLINE_MAX then TooBig else More, [], s, 0, -1, [])
    else LineAt(env, s, nl)
  }

  function KindOf(c: Client): Kind {
    if c.kind != Unknown || c.buf == [] then c.kind else if c.buf[0] == STAR then Multibulk else Inline
  }

  function Request(env: Env, c: Client): (p: Parse)
    ensures p.status == Ready && c.buf != [] ==> |p.rest| < |c.buf|
  {
    if KindOf(c) == Inline then InlineLine(env, c.buf)
    else if c.left == 0 then Count(c.buf)
    else Args([], c.buf, c.left, c.len, c.argv)
  }

  /** The client after one request was parsed, and executed if it was complete. */
  function Turn(env: Env, c: Client): Client {
    var p := Request(env, c);
    var d := c.(kind := KindOf(c), buf := p.Kept(), left := p.left, len := p.len, argv := p.argv);
    match p.status
    case More => d
    case TooBig => d.(closing := true)
    case Malformed => d.(closing := true)
    case Ready => if p.argv == [] then Reset(d) else Executed(env, d)
  }

  function Reset(c: Client): Client { c.(kind := Unknown, left := 0, len := -1, argv := []) }

  /** processCommand, and the reset that follows unless the command was QUIT. */
  function Executed(env: Env, c: Client): Client {
    var d := c.(done := c.done + [c.argv]);
    match env.control(c.argv)
    case Continue => Reset(d)
    case Block => Reset(d).(blocked := true)
    case Quit => d.(closing := true)
  }

  /** processInputBuffer: requests are parsed and executed until the buffer holds no whole one. */
  function Input(env: Env, c: Client): (d: Client)
    decreases |c.buf|
  {
    if c.buf == [] || c.blocked || c.closing then c
    else if Request(env, c).status == Ready then Input(env, Turn(env, c))
    else Turn(env, c)
  }

  /** What holds of a client between calls, until it is to be closed. */
  predicate Resting(c: Client) {
    !c.closing ==>
      && c.len >= -1
      && (c.len >= 0 ==> c.left > 0)
      && (c.left > 0 ==> c.kind == Multibulk)
      && (c.left == 0 ==> c.argv == [])
      && (c.kind == Multibulk && c.left == 0 ==> c.buf != [] && c.buf[0] == STAR)
  }

  /** A request that is not all there says where it stopped. */
  lemma RequestWaits(env: Env, c: Client)
    requires Resting(c) && !c.closing && c.buf != [] && Request(env, c).status == More
    ensures var p := Request(env, c);
      && (p.left > 0 ==> KindOf(c) == Multibulk)
      && (p.left == 0 ==> p.len == -1 && p.argv == [] && (p.rest == c.buf || KindOf(c) == Inline))
  {
  }

  /** It leaves the client at rest too. */
  lemma TurnRests(env: Env, c: Client)
    requires Resting(c) && !c.closing && c.buf != []
    ensures Resting(Turn(env, c))
  {
    if Request(env, c).status == More {
      RequestWaits(env, c);
    }
  }

  lemma Slices(q: Text, pos: nat, n: nat)
    requires pos + n <= |q|
    ensures q[pos..][..n] == q[pos..pos + n] && q[pos..][n..] == q[pos + n..]
    ensures q[..pos] + q[pos..][..n] == q[..pos + n] && q[..pos] + q[pos..] == q
  {
  }

  lemma InputTurns(env: Env, c: Client)
    requires c.buf != [] && !c.blocked && !c.closing
    ensures Input(env, c) == if Request(env, c).status == Ready then Input(env, Turn(env, c)) else Turn(env, c)
  {
  }

  /** Taking an argument out of a buffer that is read at a position, not cut off. */
  lemma BulkTaken(q: Text, pos: nat, left: nat, len: nat, argv: Argv)
    requires left > 0 && pos + len + 2 <= |q|
    ensures Args(q[..pos], q[pos..], left, len, argv)
      == if pos == 0 && len >= BIG_ARG && |q| == len + 2 then Args([], [], left - 1, -1, argv + [q[..|q| - 2]])
         else Args(q[..pos + len + 2], q[pos + len + 2..], left - 1, -1, argv + [q[pos..pos + len]])
  {
    var before, s := q[..pos], q[pos..];
    Slices(q, pos, len);
    Slices(q, pos, len + 2);
    assert Args(before, s, left, len, argv)
      == Args(AfterBulk(before, s, len), s[len + 2..], left - 1, -1, argv + [s[..len]]);
    if pos == 0 && len >= BIG_ARG && |q| == len + 2 { assert s == q && s[len + 2..] == []; }
  }
}
