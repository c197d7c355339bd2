// The control stream as a byte-level machine: what control_listen does with a datagram, told on values.
module ControlStream {
  import opened Trie

  const EQUALS: Char := 61
  const RETURN: Char := 13
  const LETTER_A: Char := 65

  // The handlers of control_handlers.c
  const REF: Handler := 1
  const PCMD: Handler := 2
  const PCMD_MAG: Handler := 3
  const CTRL: Handler := 4
  const EMPTY: Handler := 5

  /** Every handler but the empty one first reads its arguments up to the carriage return. */
  predicate ReadsArgs(h: Handler) {
    h != EMPTY
  }

  /** The commands known, and every prefix the trie has a level for. */
  datatype Dict = Dict(handlers: map<Key, Handler>, prefixes: set<Key>)

  /** A handler called with the stream at offset at. */
  datatype Call = Call(handler: Handler, at: nat)

  /** The state reached at the end of the datagram; exited if arguments ran past it. */
  datatype Outcome = Outcome(calls: seq<Call>, state: Key, exited: bool)

  function NextState(D: Dict, p: Key, c: Char): Key {
    if p + [c] in D.prefixes then p + [c] else []
  }

  /** The position of the first carriage return from pos on, or the length. */
  function ReturnFrom(buf: Key, pos: nat): (r: nat)
    requires pos <= |buf|
    ensures pos <= r <= |buf|
    ensures forall k :: pos <= k < r ==> buf[k] != RETURN
    ensures r < |buf| ==> buf[r] == RETURN
    decreases |buf| - pos
  {
    if pos == |buf| || buf[pos] == RETURN then pos else ReturnFrom(buf, pos + 1)
  }

  function Prepend(c: Call, o: Outcome): Outcome {
    o.(calls := [c] + o.calls)
  }

  /** What the next byte comes to: a call or none, and the state and position it leads to, or the exit. */
  datatype Turn = Turn(call: Option<Call>, state: Key, pos: nat, exited: bool)

  function TurnAt(D: Dict, p: Key, buf: Key, pos: nat): (t: Turn)
    requires pos < |buf|
    ensures pos < t.pos <= |buf|
  {
    if buf[pos] == EQUALS && p in D.handlers then
      var h, at := D.handlers[p], pos + 1;
      Turn(Some(Call(h, at)), [], Resume(h, buf, at), ReadsArgs(h) && ReturnFrom(buf, at) == |buf|)
    else
      Turn(None, if buf[pos] == EQUALS then [] else NextState(D, p, buf[pos]), pos + 1, false)
  }

  /** Where the scan goes on after the handler called at offset at has returned: its arguments are passed over. */
  function Resume(h: Handler, buf: Key, at: nat): (r: nat)
    requires at <= |buf|
    ensures at <= r <= |buf|
  {
    if ReadsArgs(h) then ReturnFrom(buf, at) else at
  }

  /** The calls from a position on, one after the other. */
  function Scan(D: Dict, p: Key, buf: Key, pos: nat): Outcome
    requires pos <= |buf|
    decreases |buf| - pos
  {
    if pos == |buf| then Outcome([], p, false)
    else
      var t := TurnAt(D, p, buf, pos);
      Taken(t, if t.exited then Outcome([], [], true) else Scan(D, t.state, buf, t.pos))
  }

  function Taken(t: Turn, rest: Outcome): Outcome {
    if t.call.Some? then Prepend(t.call.value, rest) else rest
  }

  /** An equals sign after a whole name. */
  lemma ScanCall(D: Dict, buf: Key, p: Key, pos: nat)
    requires pos < |buf| && buf[pos] == EQUALS && p in D.handlers
    requires ReadsArgs(D.handlers[p]) ==> ReturnFrom(buf, pos + 1) < |buf|
    ensures Scan(D, p, buf, pos)
       == Prepend(Call(D.handlers[p], pos + 1), Scan(D, [], buf, Resume(D.handlers[p], buf, pos + 1)))
  {
  }

  /** One whose arguments run past the datagram. */
  lemma ScanExit(D: Dict, buf: Key, p: Key, pos: nat)
    requires pos < |buf| && buf[pos] == EQUALS && p in D.handlers
    requires ReadsArgs(D.handlers[p]) && ReturnFrom(buf, pos + 1) == |buf|
    ensures Scan(D, p, buf, pos) == Outcome([Call(D.handlers[p], pos + 1)], [], true)
  {
  }

  /** A byte that calls no handler: the letters matched so far grow by it, or they are lost together with it. */
  lemma ScanPass(D: Dict, buf: Key, p: Key, pos: nat, q: Key)
    requires pos < |buf| && (buf[pos] == EQUALS ==> p !in D.handlers)
    requires q == if buf[pos] != EQUALS && p + [buf[pos]] in D.prefixes then p + [buf[pos]] else []
    ensures Scan(D, p, buf, pos) == Scan(D, q, buf, pos + 1)
  {
  }

  // ---- Whole commands ----

  datatype Command = Command(name: Key, args: Key)

  /** The names known all start with A, hold no equals sign, and are known letter by letter. */
  ghost predicate Proper(D: Dict) {
    && [] !in D.handlers
    && (forall p :: p in D.prefixes && p != [] ==> p[0] == LETTER_A)
    && (forall k :: k in D.handlers ==> EQUALS !in k && forall i :: 0 <= i <= |k| ==> k[..i] in D.prefixes)
  }

  ghost predicate WellFormed(D: Dict, c: Command) {
    c.name in D.handlers && LETTER_A !in c.args && RETURN !in c.args
  }

  function RenderOne(c: Command): Key {
    c.name + [EQUALS] + c.args + [RETURN]
  }

  function Render(cs: seq<Command>): Key {
    if cs == [] then [] else RenderOne(cs[0]) + Render(cs[1..])
  }

  /** One call per command, in order, each at its first argument byte. */
  function Expected(D: Dict, cs: seq<Command>, pos: nat): seq<Call>
    requires forall k :: 0 <= k < |cs| ==> cs[k].name in D.handlers
  {
    if cs == [] then []
    else [Call(D.handlers[cs[0].name], pos + |cs[0].name| + 1)] + Expected(D, cs[1..], pos + |RenderOne(cs[0])|)
  }

  ghost predicate At(buf: Key, pos: nat, s: Key) {
    pos + |s| <= |buf| && buf[pos..pos + |s|] == s
  }

  /** f is the scan of buf: it takes the turns of the machine. */
  ghost predicate Steps(f: (Key, nat) -> Outcome, D: Dict, buf: Key) {
    && (forall p: Key :: f(p, |buf|) == Outcome([], p, false))
    && (forall p: Key, pos: nat {:trigger TurnAt(D, p, buf, pos)} :: pos < |buf| ==>
          f(p, pos) == TakenIn(f, TurnAt(D, p, buf, pos)))
  }

  ghost function TakenIn(f: (Key, nat) -> Outcome, t: Turn): Outcome {
    Taken(t, if t.exited then Outcome([], [], true) else f(t.state, t.pos))
  }

  /** A byte without a call. */
  lemma ScanSkip(f: (Key, nat) -> Outcome, D: Dict, p: Key, buf: Key, pos: nat, q: Key)
    requires Steps(f, D, buf)
    requires pos < |buf| && TurnAt(D, p, buf, pos) == Turn(None, q, pos + 1, false)
    ensures f(p, pos) == f(q, pos + 1)
  {
  }

  lemma TurnInName(D: Dict, name: Key, i: nat, buf: Key, pos: nat)
    requires Proper(D) && name in D.handlers && i < |name| && pos < |buf| && buf[pos] == name[i]
    ensures TurnAt(D, name[..i], buf, pos) == Turn(None, name[..i + 1], pos + 1, false)
  {
    assert name[i] in name;
    assert name[..i] + [name[i]] == name[..i + 1];
  }

  lemma {:induction false} ScanName(f: (Key, nat) -> Outcome, D: Dict, buf: Key, pos: nat, name: Key, i: nat)
    requires Steps(f, D, buf)
    requires Proper(D) && name in D.handlers && i <= |name| && pos + i <= |buf|
    requires forall k :: 0 <= k < i ==> buf[pos + k] == name[k]
    ensures f([], pos) == f(name[..i], pos + i)
  {
    if i == 0 {
    } else {
      ScanName(f, D, buf, pos, name, i - 1);
      var at := pos + (i - 1);
      assert buf[at] == name[i - 1];
      TurnInName(D, name, i - 1, buf, at);
      ScanSkip(f, D, name[..i - 1], buf, at, name[..i]);
    }
  }

  /** At the root, a byte that starts no name is passed over. */
  lemma ScanOther(f: (Key, nat) -> Outcome, D: Dict, buf: Key, pos: nat)
    requires Steps(f, D, buf)
    requires Proper(D) && pos < |buf| && buf[pos] != LETTER_A
    ensures f([], pos) == f([], pos + 1)
  {
    var empty: Key := [];
    assert (empty + [buf[pos]])[0] == buf[pos];
    ScanSkip(f, D, [], buf, pos, []);
  }

  /** Arguments nobody reads are passed over one by one. */
  lemma {:induction false} ScanArgs(f: (Key, nat) -> Outcome, D: Dict, buf: Key, pos: nat, end: nat)
    requires Steps(f, D, buf)
    requires Proper(D) && pos <= end <= |buf| && forall k :: pos <= k < end ==> buf[k] != LETTER_A
    ensures f([], pos) == f([], end)
    decreases end - pos
  {
    if end <= pos {
    } else {
      ScanOther(f, D, buf, pos);
      ScanArgs(f, D, buf, pos + 1, end);
    }
  }

  lemma AtIndex(buf: Key, pos: nat, s: Key)
    requires At(buf, pos, s)
    ensures forall k :: 0 <= k < |s| ==> buf[pos + k] == s[k]
    ensures forall k :: pos <= k < pos + |s| ==> buf[k] in s
  {
    forall k | 0 <= k < |s|
      ensures buf[pos + k] == s[k]
    {
      assert buf[pos..pos + |s|][k] == s[k];
    }
    forall k | pos <= k < pos + |s|
      ensures buf[k] in s
    {
      assert buf[pos..pos + |s|][k - pos] == s[k - pos];
    }
  }

  lemma ReturnAfter(buf: Key, pos: nat, args: Key)
    requires At(buf, pos, args + [RETURN]) && RETURN !in args
    ensures pos + |args| < |buf| && ReturnFrom(buf, pos) == pos + |args|
  {
    var r := ReturnFrom(buf, pos);
    var s := args + [RETURN];
    assert s[|args|] == RETURN && buf[pos..pos + |s|][|args|] == s[|args|];
    forall k | pos <= k < pos + |args| ensures buf[k] != RETURN {
      assert args[k - pos] in args;
      assert s[k - pos] == args[k - pos] && buf[pos..pos + |s|][k - pos] == s[k - pos];
    }
  }

  lemma AtParts(buf: Key, pos: nat, a: Key, b: Key)
    requires At(buf, pos, a + b)
    ensures At(buf, pos, a) && At(buf, pos + |a|, b)
  {
    assert (a + b)[..|a|] == a && (a + b)[|a|..] == b;
    assert buf[pos..pos + |a|] == buf[pos..pos + |a + b|][..|a|];
    assert buf[pos + |a|..pos + |a| + |b|] == buf[pos..pos + |a + b|][|a|..];
  }

  lemma ScanEquals(f: (Key, nat) -> Outcome, D: Dict, buf: Key, p: Key, pos: nat)
    requires Steps(f, D, buf)
    requires pos < |buf| && buf[pos] == EQUALS && p in D.handlers
    requires ReadsArgs(D.handlers[p]) ==> ReturnFrom(buf, pos + 1) < |buf|
    ensures f(p, pos) == Prepend(Call(D.handlers[p], pos + 1), f([], Resume(D.handlers[p], buf, pos + 1)))
  {
    var h := D.handlers[p];
    assert TurnAt(D, p, buf, pos) == Turn(Some(Call(h, pos + 1)), [], Resume(h, buf, pos + 1), false);
  }

  /** From the start of the arguments or from their end, the scan comes to what follows them. */
  lemma ScanRest(f: (Key, nat) -> Outcome, D: Dict, buf: Key, at: nat, args: Key, h: Handler, next: nat)
    requires Steps(f, D, buf)
    requires Proper(D) && At(buf, at, args + [RETURN]) && LETTER_A !in args && RETURN !in args
    requires next == at + |args| + 1
    ensures ReturnFrom(buf, at) < |buf|
    ensures f([], Resume(h, buf, at)) == f([], next)
  {
    AtIndex(buf, at, args + [RETURN]);
    ReturnAfter(buf, at, args);
    assert forall k :: at <= k < next ==> buf[k] != LETTER_A;
    ScanArgs(f, D, buf, Resume(h, buf, at), next);
  }

  /** Where the parts of a command are. */
  lemma CommandParts(buf: Key, pos: nat, c: Command, at: nat)
    requires At(buf, pos, RenderOne(c)) && at == pos + |c.name| + 1
    ensures at <= |buf| && buf[at - 1] == EQUALS && At(buf, at, c.args + [RETURN])
    ensures forall k :: 0 <= k < |c.name| ==> buf[pos + k] == c.name[k]
  {
    var s := RenderOne(c);
    assert s == (c.name + [EQUALS]) + (c.args + [RETURN]);
    AtParts(buf, pos, c.name + [EQUALS], c.args + [RETURN]);
    AtIndex(buf, pos, c.name + [EQUALS]);
    assert (c.name + [EQUALS])[|c.name|] == buf[pos + |c.name|];
    assert forall k :: 0 <= k < |c.name| ==> (c.name + [EQUALS])[k] == c.name[k];
  }

  lemma ScanOne(f: (Key, nat) -> Outcome, D: Dict, buf: Key, pos: nat, c: Command, next: nat)
    requires Steps(f, D, buf)
    requires Proper(D) && WellFormed(D, c) && At(buf, pos, RenderOne(c)) && next == pos + |RenderOne(c)|
    ensures f([], pos) == Prepend(Call(D.handlers[c.name], pos + |c.name| + 1), f([], next))
  {
    var at := pos + |c.name| + 1;
    CommandParts(buf, pos, c, at);
    ScanCommand(f, D, buf, pos, c, at, next);
  }

  lemma ScanCommand(f: (Key, nat) -> Outcome, D: Dict, buf: Key, pos: nat, c: Command, at: nat, next: nat)
    requires Steps(f, D, buf)
    requires Proper(D) && WellFormed(D, c) && at == pos + |c.name| + 1 && next == at + |c.args| + 1
    requires At(buf, at, c.args + [RETURN]) && buf[at - 1] == EQUALS
    requires forall k :: 0 <= k < |c.name| ==> buf[pos + k] == c.name[k]
    ensures f([], pos) == Prepend(Call(D.handlers[c.name], at), f([], next))
  {
    ScanWholeName(f, D, buf, pos, c.name, at - 1);
    ScanAnswered(f, D, buf, c, at, next);
  }

  lemma ScanAnswered(f: (Key, nat) -> Outcome, D: Dict, buf: Key, c: Command, at: nat, next: nat)
    requires Steps(f, D, buf)
    requires Proper(D) && WellFormed(D, c) && 1 <= at && next == at + |c.args| + 1
    requires At(buf, at, c.args + [RETURN]) && buf[at - 1] == EQUALS
    ensures f(c.name, at - 1) == Prepend(Call(D.handlers[c.name], at), f([], next))
  {
    ScanRest(f, D, buf, at, c.args, D.handlers[c.name], next);
    ScanEquals(f, D, buf, c.name, at - 1);
  }

  lemma ScanWholeName(f: (Key, nat) -> Outcome, D: Dict, buf: Key, pos: nat, name: Key, end: nat)
    requires Steps(f, D, buf)
    requires Proper(D) && name in D.handlers && end == pos + |name| <= |buf|
    requires forall k :: 0 <= k < |name| ==> buf[pos + k] == name[k]
    ensures f([], pos) == f(name, end)
  {
    ScanName(f, D, buf, pos, name, |name|);
    assert name[..|name|] == name;
  }

  // ---- Whole commands, and commands that do not fit the buffer ----

  /** What becomes of whole commands of which only the first n bytes are received: those received whole are called; of
      the next one a name cut short stays as the state, and arguments cut short end the program unless the handler
      does not read them. */
  function Cut(D: Dict, cs: seq<Command>, n: nat, pos: nat): Outcome
    requires forall k :: 0 <= k < |cs| ==> cs[k].name in D.handlers
    decreases |cs|
  {
    if cs == [] then Outcome([], [], false)
    else
      var c, one := cs[0], |RenderOne(cs[0])|;
      var call := Call(D.handlers[c.name], pos + |c.name| + 1);
      if one <= n then Prepend(call, Cut(D, cs[1..], n - one, pos + one))
      else if n <= |c.name| then Outcome([], c.name[..n], false)
      else Outcome([call], [], ReadsArgs(call.handler))
  }

  lemma {:induction false} ScanCut(f: (Key, nat) -> Outcome, D: Dict, buf: Key, pos: nat, cs: seq<Command>, n: nat)
    requires Steps(f, D, buf)
    requires Proper(D) && forall k :: 0 <= k < |cs| ==> cs[k].name in D.handlers && WellFormed(D, cs[k])
    requires n <= |Render(cs)| && pos + n == |buf| && buf[pos..] == Render(cs)[..n]
    ensures f([], pos) == Cut(D, cs, n, pos)
    decreases |cs|
  {
    if cs == [] {
    } else {
      var one, rest := RenderOne(cs[0]), Render(cs[1..]);
      FirstBytes(buf, pos, one, rest, n);
      if |one| <= n {
        ScanCut(f, D, buf, pos + |one|, cs[1..], n - |one|);
        ScanCutFirst(f, D, buf, pos, cs, n, pos + |one|);
      } else {
        ScanPart(f, D, buf, pos, cs[0], n);
      }
    }
  }

  lemma ScanCutFirst(f: (Key, nat) -> Outcome, D: Dict, buf: Key, pos: nat, cs: seq<Command>, n: nat, next: nat)
    requires Steps(f, D, buf)
    requires Proper(D) && cs != [] && forall k :: 0 <= k < |cs| ==> cs[k].name in D.handlers
    requires WellFormed(D, cs[0]) && At(buf, pos, RenderOne(cs[0])) && |RenderOne(cs[0])| <= n
    requires next == pos + |RenderOne(cs[0])|
    requires f([], next) == Cut(D, cs[1..], n - |RenderOne(cs[0])|, next)
    ensures f([], pos) == Cut(D, cs, n, pos)
  {
    CutWhole(D, cs, n, pos, next);
    ScanThen(f, D, buf, pos, cs[0], next, Cut(D, cs[1..], n - |RenderOne(cs[0])|, next));
  }

  lemma ScanThen(f: (Key, nat) -> Outcome, D: Dict, buf: Key, pos: nat, c: Command, next: nat, rest: Outcome)
    requires Steps(f, D, buf)
    requires Proper(D) && WellFormed(D, c) && At(buf, pos, RenderOne(c)) && next == pos + |RenderOne(c)|
    requires f([], next) == rest
    ensures f([], pos) == Prepend(Call(D.handlers[c.name], pos + |c.name| + 1), rest)
  {
    ScanOne(f, D, buf, pos, c, next);
  }

  lemma CutWhole(D: Dict, cs: seq<Command>, n: nat, pos: nat, next: nat)
    requires forall k :: 0 <= k < |cs| ==> cs[k].name in D.handlers
    requires cs != [] && |RenderOne(cs[0])| <= n && next == pos + |RenderOne(cs[0])|
    ensures Cut(D, cs, n, pos)
         == Prepend(Call(D.handlers[cs[0].name], pos + |cs[0].name| + 1), Cut(D, cs[1..], n - |RenderOne(cs[0])|, next))
  {
  }

  lemma FirstBytes(buf: Key, pos: nat, a: Key, b: Key, n: nat)
    requires n <= |a + b| && pos + n == |buf| && buf[pos..] == (a + b)[..n]
    ensures if |a| <= n then At(buf, pos, a) && buf[pos + |a|..] == b[..n - |a|] else buf[pos..] == a[..n]
  {
    if |a| <= n {
      assert (a + b)[..n] == a + b[..n - |a|];
      AtParts(buf, pos, a, b[..n - |a|]);
    } else {
      assert (a + b)[..n] == a[..n];
    }
  }

  /** A command of which only n bytes are left. */
  lemma ScanPart(f: (Key, nat) -> Outcome, D: Dict, buf: Key, pos: nat, c: Command, n: nat)
    requires Steps(f, D, buf)
    requires Proper(D) && WellFormed(D, c)
    requires n < |RenderOne(c)| && pos + n == |buf| && buf[pos..] == RenderOne(c)[..n]
    ensures f([], pos) ==
      (if n <= |c.name| then Outcome([], c.name[..n], false)
       else Outcome([Call(D.handlers[c.name], pos + |c.name| + 1)], [], ReadsArgs(D.handlers[c.name])))
  {
    var name, at := c.name, pos + |c.name| + 1;
    PartBytes(buf, pos, c, n, at);
    if n <= |name| {
      ScanName(f, D, buf, pos, name, n);
    } else {
      ScanWholeName(f, D, buf, pos, name, at - 1);
      ScanPartArgs(f, D, buf, at, c.args, name);
    }
  }

  lemma PartBytes(buf: Key, pos: nat, c: Command, n: nat, at: nat)
    requires n < |RenderOne(c)| && pos + n == |buf| && buf[pos..] == RenderOne(c)[..n] && at == pos + |c.name| + 1
    ensures forall k :: 0 <= k < n && k < |c.name| ==> buf[pos + k] == c.name[k]
    ensures n > |c.name| ==> at <= |buf| && buf[at - 1] == EQUALS
    ensures forall k :: 0 <= k < |buf| - at ==> buf[at + k] == c.args[k]
  {
    forall k | 0 <= k < n
      ensures buf[pos + k] == RenderOne(c)[k]
    {
      assert buf[pos..][k] == RenderOne(c)[..n][k];
    }
    assert n > |c.name| ==> buf[pos + |c.name|] == EQUALS;
    forall k | 0 <= k < |buf| - at
      ensures buf[at + k] == c.args[k]
    {
      assert buf[pos + (at + k - pos)] == RenderOne(c)[at + k - pos];
    }
  }

  lemma ScanPartArgs(f: (Key, nat) -> Outcome, D: Dict, buf: Key, at: nat, args: Key, name: Key)
    requires Steps(f, D, buf)
    requires Proper(D) && name in D.handlers && LETTER_A !in args && RETURN !in args
    requires 1 <= at <= |buf| && buf[at - 1] == EQUALS && |buf| - at <= |args|
    requires forall k :: 0 <= k < |buf| - at ==> buf[at + k] == args[k]
    ensures f(name, at - 1) == Outcome([Call(D.handlers[name], at)], [], ReadsArgs(D.handlers[name]))
  {
    forall k | at <= k < |buf|
      ensures buf[k] != LETTER_A && buf[k] != RETURN
    {
      assert buf[at + (k - at)] == args[k - at] && args[k - at] in args;
    }
    ScanArgs(f, D, buf, at, |buf|);
    assert TurnAt(D, name, buf, at - 1).call == Some(Call(D.handlers[name], at));
  }

  /** The scan of a buffer that holds the first n bytes of whole commands. */
  lemma ScanIsCut(D: Dict, buf: Key, pos: nat, cs: seq<Command>, n: nat)
    requires Proper(D) && forall k :: 0 <= k < |cs| ==> cs[k].name in D.handlers && WellFormed(D, cs[k])
    requires n <= |Render(cs)| && pos + n == |buf| && buf[pos..] == Render(cs)[..n]
    ensures Scan(D, [], buf, pos) == Cut(D, cs, n, pos)
  {
    var f: (Key, nat) -> Outcome := (p: Key, at: nat) => if at <= |buf| then Scan(D, p, buf, at) else Outcome([], [],
      false);
    ScanCut(f, D, buf, pos, cs, n);
  }

  lemma {:induction false} NothingCut(D: Dict, cs: seq<Command>, pos: nat)
    requires forall k :: 0 <= k < |cs| ==> cs[k].name in D.handlers
    ensures Cut(D, cs, |Render(cs)|, pos) == Outcome(Expected(D, cs, pos), [], false)
    decreases |cs|
  {
    if cs == [] {
    } else {
      assert |Render(cs)| == |RenderOne(cs[0])| + |Render(cs[1..])|;
      NothingCut(D, cs[1..], pos + |RenderOne(cs[0])|);
    }
  }

  /** A datagram of whole commands: each command's handler is called exactly once, in order, at its first
      argument byte; every byte is consumed and the machine is back at the root. */
  lemma ScanCommands(D: Dict, buf: Key, pos: nat, cs: seq<Command>)
    requires Proper(D) && forall k :: 0 <= k < |cs| ==> cs[k].name in D.handlers && WellFormed(D, cs[k])
    requires At(buf, pos, Render(cs)) && pos + |Render(cs)| == |buf|
    ensures Scan(D, [], buf, pos) == Outcome(Expected(D, cs, pos), [], false)
  {
    var n := |Render(cs)|;
    assert buf[pos..] == buf[pos..pos + n] && Render(cs)[..n] == Render(cs);
    ScanIsCut(D, buf, pos, cs, n);
    NothingCut(D, cs, pos);
  }

  /** The first n bytes keep every command alive: they hold all bytes, or all but bytes after the last equals sign, and
      the last handler does not read its arguments. */
  predicate Survives(D: Dict, cs: seq<Command>, n: nat)
    requires forall k :: 0 <= k < |cs| ==> cs[k].name in D.handlers
  {
    || |Render(cs)| <= n
    || (cs != [] && !ReadsArgs(D.handlers[cs[|cs| - 1].name]) && |Render(cs)| - |cs[|cs| - 1].args| - 1 <= n)
  }

  lemma {:induction false} ExpectedLength(D: Dict, cs: seq<Command>, pos: nat)
    requires forall k :: 0 <= k < |cs| ==> cs[k].name in D.handlers
    ensures |Expected(D, cs, pos)| == |cs|
  {
    if cs == [] {
    } else {
      ExpectedLength(D, cs[1..], pos + |RenderOne(cs[0])|);
    }
  }

  lemma {:induction false} LastLength(cs: seq<Command>)
    requires cs != []
    ensures |RenderOne(cs[|cs| - 1])| <= |Render(cs)|
  {
    if |cs| <= 1 {
    } else {
      LastLength(cs[1..]);
    }
  }

  lemma {:induction false} CutIff(D: Dict, cs: seq<Command>, n: nat, pos: nat)
    requires forall k :: 0 <= k < |cs| ==> cs[k].name in D.handlers
    ensures Cut(D, cs, n, pos).calls == Expected(D, cs, pos) && !Cut(D, cs, n, pos).exited <==> Survives(D, cs, n)
    decreases |cs|
  {
    if cs == [] {
    } else {
      var one := |RenderOne(cs[0])|;
      assert |Render(cs)| == one + |Render(cs[1..])|;
      ExpectedLength(D, cs, pos);
      if one <= n {
        CutIff(D, cs[1..], n - one, pos + one);
        var call := Call(D.handlers[cs[0].name], pos + |cs[0].name| + 1);
        FirstOff(call, Cut(D, cs[1..], n - one, pos + one).calls, Expected(D, cs[1..], pos + one));
        if |cs| > 1 {
          assert cs[1..][|cs[1..]| - 1] == cs[|cs| - 1];
        }
      } else if |cs| > 1 {
        LastLength(cs[1..]);
        assert cs[1..][|cs[1..]| - 1] == cs[|cs| - 1];
      } else {
        assert cs == [cs[0]];
        CutLast(D, cs[0], n, pos);
      }
    }
  }

  lemma FirstOff(c: Call, a: seq<Call>, b: seq<Call>)
    ensures [c] + a == [c] + b <==> a == b
  {
    assert ([c] + a)[1..] == a && ([c] + b)[1..] == b;
  }

  lemma CutLast(D: Dict, c: Command, n: nat, pos: nat)
    requires c.name in D.handlers && n < |RenderOne(c)|
    ensures Cut(D, [c], n, pos).calls == Expected(D, [c], pos) && !Cut(D, [c], n, pos).exited <==> Survives(D, [c], n)
  {
    assert Expected(D, [], pos + |RenderOne(c)|) == [] && Render([]) == [];
    assert [c][1..] == [];
    assert |Render([c])| == |RenderOne(c)|;
  }

  // ---- A run over many datagrams ----

  const BUF_SIZE := 300

  /** What of a datagram comes into the buffer; the rest of it is lost. */
  function Received(d: Key): Key {
    if |d| <= BUF_SIZE then d else d[..BUF_SIZE]
  }

  /** The buffer after a datagram has been received: behind its bytes are those of datagrams before. */
  function Overwritten(memory: Key, d: Key): Key {
    Received(d) + if |Received(d)| <= |memory| then memory[|Received(d)|..] else []
  }

  /** What a datagram leaves to the next: the letters matched so far, and the buffer. */
  datatype Left = Left(node: Key, memory: Key)

  /** What sscanf reads at each place of the buffer: it is given all that follows, whatever the datagram's length. */
  function ReadsOf(parse: Key -> Fields, memory: Key): nat -> Fields {
    (at: nat) => parse(if at <= |memory| then memory[at..] else [])
  }

  /** What one datagram does from a given state: the calls made, the effects they ask for, the state left.  An empty
      one ends the program. */
  datatype Step = Step(calls: seq<Call>, effects: seq<Effect>, state: Left, exited: bool)

  function StepOf(D: Dict, parse: Key -> Fields, l: Left, d: Key): Step {
    if d == [] then Step([], [], l, true)
    else
      var o, memory := Scan(D, l.node, Received(d), 0), Overwritten(l.memory, d);
      Step(o.calls, Effects(ReadsOf(parse, memory), o.calls, Received(d)), Left(o.state, memory), o.exited)
  }

  /** A datagram of whole commands is dispatched completely, and the program goes on, if and only if there is a command
      and they survive the cut at the size of the buffer. */
  lemma {:induction false} DispatchedIff(D: Dict, parse: Key -> Fields, memory: Key, cs: seq<Command>)
    requires Proper(D) && forall k :: 0 <= k < |cs| ==> cs[k].name in D.handlers && WellFormed(D, cs[k])
    ensures var s := StepOf(D, parse, Left([], memory), Render(cs));
      s.calls == Expected(D, cs, 0) && !s.exited <==> cs != [] && Survives(D, cs, BUF_SIZE)
  {
    var d := Render(cs);
    if cs != [] {
      assert d != [];
      var n := |Received(d)|;
      ScanIsCut(D, Received(d), 0, cs, n);
      CutIff(D, cs, n, 0);
      assert Survives(D, cs, n) <==> Survives(D, cs, BUF_SIZE);
    }
  }

  /** The datagrams one after the other; the state carries over, and nothing follows an exit. */
  function RunAll(step: (Left, Key) -> Step, l: Left, ds: seq<Key>): Step
    decreases |ds|
  {
    if ds == [] then Step([], [], l, false)
    else
      var now := step(l, ds[0]);
      if now.exited then now
      else
        var rest := RunAll(step, now.state, ds[1..]);
        Step(now.calls + rest.calls, now.effects + rest.effects, rest.state, rest.exited)
  }

  function ExpectedAll(D: Dict, css: seq<seq<Command>>): seq<Call>
    requires forall i, k :: 0 <= i < |css| && 0 <= k < |css[i]| ==> css[i][k].name in D.handlers
  {
    if css == [] then [] else Expected(D, css[0], 0) + ExpectedAll(D, css[1..])
  }

  /** On any sequence of datagrams made of whole commands that fit the buffer, every command is dispatched once, in
      order. */
  lemma {:induction false} ListenToCommands(D: Dict, parse: Key -> Fields, step: (Left, Key) -> Step, memory: Key,
                                            ds: seq<Key>, css: seq<seq<Command>>)
    requires forall l, d :: step(l, d) == StepOf(D, parse, l, d)
    requires Proper(D) && |ds| == |css|
    requires forall i :: 0 <= i < |ds| ==> ds[i] == Render(css[i]) && 1 <= |ds[i]| <= BUF_SIZE
    requires forall i, k :: 0 <= i < |css| && 0 <= k < |css[i]| ==>
      css[i][k].name in D.handlers && WellFormed(D, css[i][k])
    ensures RunAll(step, Left([], memory), ds).calls == ExpectedAll(D, css)
    ensures RunAll(step, Left([], memory), ds).state.node == [] && !RunAll(step, Left([], memory), ds).exited
    decreases |ds|
  {
    if ds == [] {
    } else {
      assert At(ds[0], 0, Render(css[0]));
      ScanCommands(D, ds[0], 0, css[0]);
      assert step(Left([], memory), ds[0]) == StepOf(D, parse, Left([], memory), ds[0]);
      ListenToCommands(D, parse, step, Overwritten(memory, ds[0]), ds[1..], css[1..]);
    }
  }

  // ---- The sequence-number gate ----

  /** What sscanf leaves: the sequence number, the control word, and the values behind it. */
  datatype Fields = Fields(number: nat, control: nat, values: seq<int>)

  /** What is passed on to the drone. */
  datatype Order =
    | AtRef(start: bool, select: bool)
    | AtPcmdMag(control: nat, values: seq<int>, magneto: bool)

  /** What a call asks for: an order that must pass the gate, or the configuration, which is sent back in any case. */
  datatype Effect = Ordered(number: nat, order: Order) | Reply

  function Bit(x: nat, value: nat): bool
    requires value > 0
  {
    x / value % 2 == 1
  }

  function OrderOf(h: Handler, f: Fields): Order {
    if h == REF then AtRef(Bit(f.control, 512), Bit(f.control, 256)) else AtPcmdMag(f.control, f.values, h == PCMD_MAG)
  }

  /** Bits 9 and 8 of a number, one by one. */
  lemma BitsAre(x: nat, k: nat, a: nat, b: nat, r: nat)
    requires x == 1024 * k + 512 * a + 256 * b + r && a < 2 && b < 2 && r < 256
    ensures Bit(x, 512) <==> a == 1
    ensures Bit(x, 256) <==> b == 1
  {
    assert x / 512 == 2 * k + a;
    assert x / 256 == 2 * (2 * k + a) + b;
    OddIff(x / 512, k, a);
    OddIff(x / 256, 2 * k + a, b);
  }

  lemma OddIff(x: nat, half: nat, bit: nat)
    requires x == 2 * half + bit && bit < 2
    ensures x % 2 == bit
  {
  }

  /** The same by the remainders. */
  lemma BitsOf(x: nat)
    ensures Bit(x, 512) <==> x % 1024 >= 512
    ensures Bit(x, 256) <==> x % 512 >= 256
  {
    var k, s := x / 1024, x % 1024;
    var a := if s >= 512 then 1 else 0;
    var t := s - 512 * a;
    var b := if t >= 256 then 1 else 0;
    BitsAre(x, k, a, b, t - 256 * b);
    RemainderIs(x, 2 * k + a, t);
  }

  lemma RemainderIs(x: nat, q: nat, t: nat)
    requires x == 512 * q + t && t < 512
    ensures x % 512 == t
  {
  }

  predicate Passes(seq_num: nat, e: Effect) {
    e.Ordered? ==> e.number >= seq_num
  }

  function Kept(seq_num: nat, e: Effect): nat {
    if e.Ordered? && e.number >= seq_num then e.number else seq_num
  }

  /** The effects a session has: an order's number must be at least the last one passed on. */
  function Accepted(seq_num: nat, es: seq<Effect>): seq<Effect>
    decreases |es|
  {
    if es == [] then [] else (if Passes(seq_num, es[0]) then [es[0]] else []) + Accepted(Kept(seq_num, es[0]), es[1..])
  }

  function Highest(seq_num: nat, es: seq<Effect>): nat
    decreases |es|
  {
    if es == [] then seq_num else Highest(Kept(seq_num, es[0]), es[1..])
  }

  lemma {:induction false} GateAppend(seq_num: nat, a: seq<Effect>, b: seq<Effect>)
    ensures Accepted(seq_num, a + b) == Accepted(seq_num, a) + Accepted(Highest(seq_num, a), b)
    ensures Highest(seq_num, a + b) == Highest(Highest(seq_num, a), b)
    decreases |a|
  {
    if a == [] {
      assert a + b == b;
    } else {
      var k, rest, ab := Kept(seq_num, a[0]), a[1..], a + b;
      assert ab[0] == a[0] && ab[1..] == rest + b;
      GateAppend(k, rest, b);
      var first := if Passes(seq_num, a[0]) then [a[0]] else [];
      assert first + (Accepted(k, rest) + Accepted(Highest(k, rest), b))
          == (first + Accepted(k, rest)) + Accepted(Highest(k, rest), b);
    }
  }

  /** The numbers of the orders passed on never decrease, the session's number is the highest it was ever sent, and
      nothing else holds back an order or a reply. */
  lemma {:induction false} GateOrders(seq_num: nat, es: seq<Effect>)
    ensures forall i, j ::
      0 <= i < j < |Accepted(seq_num, es)| && Accepted(seq_num, es)[i].Ordered? && Accepted(seq_num, es)[j].Ordered? ==>
        Accepted(seq_num, es)[i].number <= Accepted(seq_num, es)[j].number
    ensures forall i :: 0 <= i < |Accepted(seq_num, es)| ==> Passes(seq_num, Accepted(seq_num, es)[i])
    ensures seq_num <= Highest(seq_num, es)
    ensures forall k :: 0 <= k < |es| && es[k].Ordered? ==> es[k].number <= Highest(seq_num, es)
    ensures Highest(seq_num, es) == seq_num
      || exists k :: 0 <= k < |es| && es[k].Ordered? && es[k].number == Highest(seq_num, es)
    decreases |es|
  {
    if es == [] {
    } else {
      GateOrders(Kept(seq_num, es[0]), es[1..]);
    }
  }

  predicate Gated(h: Handler) {
    h == REF || h == PCMD || h == PCMD_MAG
  }

  /** What one call asks for, once its arguments are known to end in a carriage return. */
  function EffectOf(fields: nat -> Fields, c: Call, buf: Key): seq<Effect> {
    if c.at <= |buf| && ReturnFrom(buf, c.at) < |buf| then Asked(c.handler, fields(c.at)) else []
  }

  function Asked(h: Handler, f: Fields): seq<Effect> {
    if Gated(h) then [Ordered(f.number, OrderOf(h, f))] else if h == CTRL && f.control == 4 then [Reply] else []
  }

  /** A REF whose control word has start in bit 9 and select in bit 8 asks for just these. */
  lemma RefAsksFor(fields: nat -> Fields, c: Call, buf: Key, k: nat, a: nat, b: nat, r: nat)
    requires c.handler == REF && c.at <= |buf| && ReturnFrom(buf, c.at) < |buf|
    requires fields(c.at).control == 1024 * k + 512 * a + 256 * b + r && a < 2 && b < 2 && r < 256
    ensures EffectOf(fields, c, buf) == [Ordered(fields(c.at).number, AtRef(a == 1, b == 1))]
  {
    BitsAre(fields(c.at).control, k, a, b, r);
  }

  /** A PCMD asks for its own control word and values, without the magneto values; a PCMD_MAG with them. */
  lemma PcmdAsksFor(fields: nat -> Fields, c: Call, buf: Key)
    requires c.handler in {PCMD, PCMD_MAG} && c.at <= |buf| && ReturnFrom(buf, c.at) < |buf|
    ensures var f := fields(c.at);
      EffectOf(fields, c, buf) == [Ordered(f.number, AtPcmdMag(f.control, f.values, c.handler == PCMD_MAG))]
  {
  }

  /** What the calls of a datagram ask for. */
  function Effects(fields: nat -> Fields, calls: seq<Call>, buf: Key): seq<Effect> {
    if calls == [] then [] else EffectOf(fields, calls[0], buf) + Effects(fields, calls[1..], buf)
  }

  lemma {:induction false} EffectsAppend(fields: nat -> Fields, a: seq<Call>, b: seq<Call>, buf: Key)
    ensures Effects(fields, a + b, buf) == Effects(fields, a, buf) + Effects(fields, b, buf)
    decreases |a|
  {
    if a == [] {
      assert a + b == b;
    } else {
      assert (a + b)[1..] == a[1..] + b;
      EffectsAppend(fields, a[1..], b, buf);
    }
  }

  /** What a datagram of one whole command asks for is what its handler makes of what sscanf reads behind the name. */
  lemma OneCommandAsksFor(D: Dict, parse: Key -> Fields, memory: Key, c: Command, d: Key, at: nat)
    requires Proper(D) && WellFormed(D, c) && d == RenderOne(c) && |d| <= BUF_SIZE && at == |c.name| + 1
    ensures |d| <= |Overwritten(memory, d)|
    ensures StepOf(D, parse, Left([], memory), d).effects
         == Asked(D.handlers[c.name], parse(Overwritten(memory, d)[at..]))
  {
    var fields, call := ReadsOf(parse, Overwritten(memory, d)), Call(D.handlers[c.name], at);
    assert Render([c]) == d by { assert [c][1..] == [] && Render([]) == []; }
    assert Expected(D, [c], 0) == [call] by { assert [c][1..] == []; }
    ScanCommands(D, d, 0, [c]);
    assert Effects(fields, [call], d) == EffectOf(fields, call, d) by { assert [call][1..] == []; }
    CommandParts(d, 0, c, at);
    ReturnAfter(d, at, c.args);
  }

  /** A datagram of one REF whose control word has start in bit 9 and select in bit 8 asks for just these. */
  lemma RefDatagram(D: Dict, parse: Key -> Fields, memory: Key, c: Command, d: Key, at: nat, k: nat, a: nat, b: nat,
                    r: nat)
    requires Proper(D) && WellFormed(D, c) && d == RenderOne(c) && |d| <= BUF_SIZE && at == |c.name| + 1
    requires D.handlers[c.name] == REF && |d| <= |Overwritten(memory, d)|
    requires var f := parse(Overwritten(memory, d)[at..]);
      f.control == 1024 * k + 512 * a + 256 * b + r && a < 2 && b < 2 && r < 256
    ensures StepOf(D, parse, Left([], memory), d).effects
         == [Ordered(parse(Overwritten(memory, d)[at..]).number, AtRef(a == 1, b == 1))]
  {
    OneCommandAsksFor(D, parse, memory, c, d, at);
    BitsAre(parse(Overwritten(memory, d)[at..]).control, k, a, b, r);
  }

  // ---- Where a session stands ----

  /** Its handler calls, what has been passed on, and the number last passed on. */
  datatype Progress = Progress(calls: seq<Call>, accepted: seq<Effect>, seq_num: nat)

  /** The progress after these calls, asking for these effects. */
  function After(g: Progress, calls: seq<Call>, effects: seq<Effect>): Progress {
    Progress(g.calls + calls, g.accepted + Accepted(g.seq_num, effects), Highest(g.seq_num, effects))
  }

  function Advance(g: Progress, step: Step): Progress {
    After(g, step.calls, step.effects)
  }

  /** The progress after more calls in a datagram. */
  function Grown(g: Progress, fields: nat -> Fields, calls: seq<Call>, buf: Key): Progress {
    After(g, calls, Effects(fields, calls, buf))
  }

  lemma AfterTwice(g: Progress, calls: seq<Call>, effects: seq<Effect>, calls': seq<Call>, effects': seq<Effect>)
    ensures After(After(g, calls, effects), calls', effects') == After(g, calls + calls', effects + effects')
  {
    GateAppend(g.seq_num, effects, effects');
    assert g.calls + calls + calls' == g.calls + (calls + calls');
  }

  lemma GrownTwice(g: Progress, fields: nat -> Fields, a: seq<Call>, b: seq<Call>, buf: Key)
    ensures Grown(Grown(g, fields, a, buf), fields, b, buf) == Grown(g, fields, a + b, buf)
  {
    EffectsAppend(fields, a, b, buf);
    AfterTwice(g, a, Effects(fields, a, buf), b, Effects(fields, b, buf));
  }

  lemma GrownByNone(g: Progress, fields: nat -> Fields, buf: Key)
    ensures Grown(g, fields, [], buf) == g
  {
  }

  lemma AdvanceTwice(g: Progress, a: Step, b: Step)
    ensures Advance(Advance(g, a), b) == Advance(g, Step(a.calls + b.calls, a.effects + b.effects, b.state, b.exited))
  {
    AfterTwice(g, a.calls, a.effects, b.calls, b.effects);
  }

  lemma AdvanceByNone(g: Progress, state: Left, exited: bool)
    ensures Advance(g, Step([], [], state, exited)) == g
  {
  }
}
