// control_server.c and control_handlers.c: the command trie, the dispatch loop over received bytes, and the
// handlers that read their arguments and gate on the sequence number.
module ControlServer {
  import opened Trie
  import opened ControlStream

  /** The characters of an ASCII string. */
  function Ascii(s: string): Key
    requires forall i :: 0 <= i < |s| ==> (s[i] as int) < 128
  {
    seq(|s|, i requires 0 <= i < |s| => s[i] as int)
  }

  /** The commands create_control_command_trie registers. */
  function Registered(): map<Key, Handler> {
    Configuring()[Ascii("AT*COMWDG") := EMPTY][Ascii("AT*CALIB") := EMPTY][Ascii("AT*CTRL") := CTRL]
  }

  function Configuring(): map<Key, Handler> {
    Movement()[Ascii("AT*FTRIM") := EMPTY][Ascii("AT*CONFIG") := EMPTY][Ascii("AT*CONFIG_IDS") := EMPTY]
  }

  function Movement(): map<Key, Handler> {
    map[][Ascii("AT*REF") := REF][Ascii("AT*PCMD") := PCMD][Ascii("AT*PCMD_MAG") := PCMD_MAG]
  }

  /** The nine names and their handlers; no other name has one. */
  lemma NamesHandled()
    ensures Registered() == map[Ascii("AT*REF") := REF, Ascii("AT*PCMD") := PCMD, Ascii("AT*PCMD_MAG") := PCMD_MAG,
      Ascii("AT*CTRL") := CTRL, Ascii("AT*FTRIM") := EMPTY, Ascii("AT*CONFIG") := EMPTY,
      Ascii("AT*CONFIG_IDS") := EMPTY, Ascii("AT*COMWDG") := EMPTY, Ascii("AT*CALIB") := EMPTY]
  {
  }

  ghost function DictOf(t: TernaryTrie): Dict
    requires t.Valid()
    reads t, t.order
  {
    Dict(map k | k in t.level && t.HandlerAt(k).Some? :: t.HandlerAt(k).value, t.level.Keys)
  }

  /** A name all of whose letters make sense to the dispatcher. */
  ghost predicate IsName(k: Key) {
    NulFree(k) && k != [] && k[0] == LETTER_A && EQUALS !in k
  }

  /** Every name registered so far is one the dispatcher can follow. */
  ghost predicate Following(t: TernaryTrie)
    requires t.Valid()
    reads t, t.order
  {
    && (forall p :: p in t.level && p != [] ==> p[0] == LETTER_A)
    && (forall k :: k in t.level && t.HandlerAt(k).Some? ==> IsName(k))
  }

  predicate IsAsciiName(s: string) {
    |s| > 0 && s[0] == 'A' && forall i :: 0 <= i < |s| ==> '\0' < s[i] && (s[i] as int) < 128 && s[i] != '='
  }

  lemma AsciiName(s: string)
    requires IsAsciiName(s)
    ensures IsName(Ascii(s))
  {
    forall i | 0 <= i < |s| ensures Ascii(s)[i] != EQUALS && Ascii(s)[i] != 0 {
      assert Ascii(s)[i] == s[i] as int;
      assert ('=' as int) == 61;
    }
  }

  method RegisterAscii(t: TernaryTrie, s: string, handler: Handler, ghost names: map<Key, Handler>)
    requires IsAsciiName(s)
    requires t.Valid() && Following(t) && DictOf(t).handlers == names
    modifies t, t.order
    ensures t.Valid() && Following(t) && DictOf(t).handlers == names[Ascii(s) := handler]
    ensures forall i :: 0 <= i < |t.order| ==> t.order[i] in old(t.order) || fresh(t.order[i])
  {
    AsciiName(s);
    var name := Ascii(s);
    t.InsertHandler(name, handler);
    HandlersAre(t, names[name := handler]);
  }

  lemma HandlersAre(t: TernaryTrie, names: map<Key, Handler>)
    requires t.Valid() && forall k :: t.HandlerAt(k) == if k in names then Some(names[k]) else None
    ensures DictOf(t).handlers == names
  {
    forall k
      ensures k in DictOf(t).handlers <==> k in names
      ensures k in names ==> DictOf(t).handlers[k] == names[k]
    {
      assert t.HandlerAt(k) == if k in names then Some(names[k]) else None;
    }
  }

  lemma TrieIsProper(t: TernaryTrie)
    requires t.Valid() && Following(t)
    ensures Proper(DictOf(t))
  {
    forall k, i | k in DictOf(t).handlers && 0 <= i <= |k| ensures k[..i] in DictOf(t).prefixes {
      PrefixInLevel(t, k, i);
    }
  }

  lemma {:induction false} PrefixInLevel(t: TernaryTrie, k: Key, i: nat)
    requires t.Valid() && k in t.level && i <= |k|
    ensures k[..i] in t.level
    decreases |k| - i
  {
    if i == |k| {
      assert k[..i] == k;
    } else {
      PrefixInLevel(t, k, i + 1);
      assert k[..i] + [k[i]] == k[..i + 1];
      if k[..i] !in t.level { t.PrefixClosedStep(k[..i], k[i]); }
    }
  }

  lemma NamesAreAscii()
    ensures IsAsciiName("AT*REF") && IsAsciiName("AT*PCMD") && IsAsciiName("AT*PCMD_MAG")
    ensures IsAsciiName("AT*FTRIM") && IsAsciiName("AT*CONFIG") && IsAsciiName("AT*CONFIG_IDS")
    ensures IsAsciiName("AT*COMWDG") && IsAsciiName("AT*CALIB") && IsAsciiName("AT*CTRL")
  {
  }

  method CreateControlCommandTrie() returns (t: TernaryTrie)
    ensures fresh(t) && t.Valid() && (forall i :: 0 <= i < |t.order| ==> fresh(t.order[i]))
    ensures DictOf(t).handlers == Registered() && Proper(DictOf(t))
  {
    NamesAreAscii();
    t := new TernaryTrie();
    assert DictOf(t).handlers == map[];
    RegisterThree(t, "AT*REF", REF, "AT*PCMD", PCMD, "AT*PCMD_MAG", PCMD_MAG, map[]);
    assert forall i :: 0 <= i < |t.order| ==> fresh(t.order[i]);
    RegisterThree(t, "AT*FTRIM", EMPTY, "AT*CONFIG", EMPTY, "AT*CONFIG_IDS", EMPTY, Movement());
    assert forall i :: 0 <= i < |t.order| ==> fresh(t.order[i]);
    RegisterThree(t, "AT*COMWDG", EMPTY, "AT*CALIB", EMPTY, "AT*CTRL", CTRL, Configuring());
    TrieIsProper(t);
  }

  method RegisterThree(t: TernaryTrie, s0: string, h0: Handler, s1: string, h1: Handler, s2: string, h2: Handler,
                       ghost m: map<Key, Handler>)
    requires t.Valid() && Following(t) && DictOf(t).handlers == m
    requires IsAsciiName(s0) && IsAsciiName(s1) && IsAsciiName(s2)
    modifies t, t.order
    ensures t.Valid() && Following(t) && DictOf(t).handlers == m[Ascii(s0) := h0][Ascii(s1) := h1][Ascii(s2) := h2]
    ensures forall i :: 0 <= i < |t.order| ==> t.order[i] in old(t.order) || fresh(t.order[i])
  {
    RegisterAscii(t, s0, h0, m);
    assert forall i :: 0 <= i < |t.order| ==> t.order[i] in old(t.order) || fresh(t.order[i]);
    RegisterAscii(t, s1, h1, m[Ascii(s0) := h0]);
    assert forall i :: 0 <= i < |t.order| ==> t.order[i] in old(t.order) || fresh(t.order[i]);
    RegisterAscii(t, s2, h2, m[Ascii(s0) := h0][Ascii(s1) := h1]);
  }

  // ---- The session ----

  class Session {
    var buffer: Key              // the bytes received
    var memory: Key              // the whole buffer they are in
    var buf_ptr: nat
    var bytes_left: nat
    var seq_num: nat
    const parse: Key -> Fields   // what sscanf makes of the bytes it is given
    var calls: seq<Call>         // every handler call made, with the stream position it was made at
    var accepted: seq<Effect>    // the orders passed on to the drone, and the configurations sent

    constructor (parse: Key -> Fields)
      ensures this.parse == parse && seq_num == 0 && calls == [] && accepted == [] && bytes_left == 0 && Valid()
    {
      this.parse := parse;
      buffer, memory, buf_ptr, bytes_left, seq_num, calls, accepted := [], [], 0, 0, 0, [], [];
    }

    ghost predicate Valid()
      reads this
    {
      buf_ptr + bytes_left == |buffer|
    }

    /** Nothing has been received since. */
    ghost predicate Same(buffer0: Key, memory0: Key)
      reads this
    {
      buffer == buffer0 && memory == memory0
    }

    ghost function Reads(): nat -> Fields
      reads this
    {
      ReadsOf(parse, memory)
    }

    ghost function Stand(): Progress
      reads this
    {
      Progress(calls, accepted, seq_num)
    }

    /** Leaves the stream at the carriage return that ends the arguments; ok is false when there is none. */
    method ControlReadArgs() returns (args: nat, ok: bool)
      requires Valid()
      modifies this`buf_ptr, this`bytes_left
      ensures Valid() && buf_ptr == ReturnFrom(buffer, old(buf_ptr))
      ensures ok <==> ReturnFrom(buffer, old(buf_ptr)) < |buffer|
      ensures args == old(buf_ptr)
    {
      var buf_start := buf_ptr;
      args := buf_start;
      while true
        invariant Valid() && buf_start <= buf_ptr && ReturnFrom(buffer, buf_ptr) == ReturnFrom(buffer, buf_start)
        decreases bytes_left
      {
        if bytes_left == 0 {
          return args, false;
        }
        if buffer[buf_ptr] == RETURN {
          break;
        }
        bytes_left := bytes_left - 1;
        buf_ptr := buf_ptr + 1;
      }
      return args, true;
    }

    /** The handlers: the empty one does nothing; the others read their arguments, and the movement commands
        are passed on unless their sequence number is lower than the last one passed on. */
    method RunHandler(h: Handler) returns (ok: bool)
      requires Valid()
      modifies this
      ensures Valid() && Same(old(buffer), old(memory)) && calls == old(calls) + [Call(h, old(buf_ptr))]
      ensures buf_ptr == Resume(h, buffer, old(buf_ptr))
      ensures ok <==> !ReadsArgs(h) || ReturnFrom(buffer, old(buf_ptr)) < |buffer|
      ensures Stand() == Grown(old(Stand()), Reads(), [Call(h, old(buf_ptr))], buffer)
      ensures !ok || h == EMPTY ==> accepted == old(accepted) && seq_num == old(seq_num)
      ensures ok && h != EMPTY ==>
        ActedOn(h, Reads()(old(buf_ptr)), old(seq_num), old(accepted), seq_num, accepted)
    {
      ghost var call := Call(h, buf_ptr);
      calls := calls + [Call(h, buf_ptr)];
      OneEffect(Reads(), call, buffer);
      if h == EMPTY {
        return true;
      }
      var args;
      args, ok := ControlReadArgs();
      if ok {
        var fields := parse(if args <= |memory| then memory[args..] else []);
        Act(h, fields);
        OneAsked(old(seq_num), h, fields);
      }
    }

    /** What a handler does once it has its arguments. */
    method Act(h: Handler, f: Fields)
      modifies this`accepted, this`seq_num
      ensures ActedOn(h, f, old(seq_num), old(accepted), seq_num, accepted)
      ensures accepted == old(accepted) + AcceptedOne(old(seq_num), Asked(h, f))
      ensures seq_num == KeptOne(old(seq_num), Asked(h, f))
    {
      if h == CTRL {
        match f.control {
          case 4 => accepted := accepted + [Reply];
          case _ =>
        }
      } else if h == REF {
        if f.number >= seq_num {
          BitsOf(f.control);
          accepted := accepted + [Ordered(f.number, AtRef(Bit(f.control, 512), Bit(f.control, 256)))];
          seq_num := f.number;
        }
      } else if h == PCMD || h == PCMD_MAG {
        if f.number >= seq_num {
          accepted := accepted + [Ordered(f.number, AtPcmdMag(f.control, f.values, h == PCMD_MAG))];
          seq_num := f.number;
        }
      }
    }
  }

  /** What a handler has done with its arguments.  An order with a number lower than the last one is held back; of any
      other one a REF passes on bit 9 of its control word as start and bit 8 as select, and a PCMD or PCMD_MAG its
      control word and values; a CTRL sends the configuration if its control word is 4. */
  ghost predicate ActedOn(h: Handler, f: Fields, last: nat, before: seq<Effect>, seq_num: nat, accepted: seq<Effect>) {
    && (Gated(h) && f.number >= last ==> seq_num == f.number && |accepted| == |before| + 1)
    && (!Gated(h) || f.number < last ==> seq_num == last)
    && (Gated(h) && f.number < last ==> accepted == before)
    && (h == REF && f.number >= last ==>
          accepted == before + [Ordered(f.number, AtRef(f.control % 1024 >= 512, f.control % 512 >= 256))])
    && (h == PCMD && f.number >= last ==>
          accepted == before + [Ordered(f.number, AtPcmdMag(f.control, f.values, false))])
    && (h == PCMD_MAG && f.number >= last ==>
          accepted == before + [Ordered(f.number, AtPcmdMag(f.control, f.values, true))])
    && (h == CTRL ==> accepted == if f.control == 4 then before + [Reply] else before)
    && (!Gated(h) && h != CTRL ==> accepted == before)
  }

  function AcceptedOne(seq_num: nat, es: seq<Effect>): seq<Effect> {
    if es != [] && Passes(seq_num, es[0]) then [es[0]] else []
  }

  function KeptOne(seq_num: nat, es: seq<Effect>): nat {
    if es != [] then Kept(seq_num, es[0]) else seq_num
  }

  lemma OneEffect(fields: nat -> Fields, c: Call, buf: Key)
    ensures Effects(fields, [c], buf) == EffectOf(fields, c, buf)
  {
    assert [c][1..] == [] && Effects(fields, [], buf) == [];
  }

  lemma OneAsked(seq_num: nat, h: Handler, f: Fields)
    ensures Accepted(seq_num, Asked(h, f)) == AcceptedOne(seq_num, Asked(h, f))
    ensures Highest(seq_num, Asked(h, f)) == KeptOne(seq_num, Asked(h, f))
  {
    var es := Asked(h, f);
    if es != [] {
      assert es[1..] == [];
    }
  }

  /** What has been done with the bytes before the current one, given that the scan of the datagram is known. */
  ghost predicate Doing(s: Session, D: Dict, p: Key, goal: Outcome, calls: seq<Call>, g: Progress)
    reads s
  {
    && s.Valid()
    && goal == PrependAll(calls, Scan(D, p, s.buffer, s.buf_ptr))
    && s.Stand() == Grown(g, s.Reads(), calls, s.buffer)
  }

  function PrependAll(calls: seq<Call>, o: Outcome): Outcome {
    o.(calls := calls + o.calls)
  }

  /** n is the level of p. */
  ghost predicate Stands(t: TernaryTrie, n: Node, p: Key)
    reads t, t.order
  {
    t.Valid() && p in t.level && t.level[p] == n
  }

  lemma CallDone(calls: seq<Call>, c: Call, o: Outcome)
    ensures PrependAll(calls, Prepend(c, o)) == PrependAll(calls + [c], o)
  {
    assert calls + ([c] + o.calls) == (calls + [c]) + o.calls;
  }

  lemma HandlerOf(t: TernaryTrie, n: Node, p: Key)
    requires Stands(t, n, p)
    ensures n.handler.Some? <==> p in DictOf(t).handlers
    ensures n.handler.Some? ==> DictOf(t).handlers[p] == n.handler.value
  {
    assert t.HandlerAt(p) == n.handler;
  }

  /** An equals sign after a whole name: the handler runs at the byte that follows. */
  method CallHandler(s: Session, h: Handler, ghost D: Dict, ghost p: Key, ghost goal: Outcome, ghost calls: seq<Call>,
                     ghost g: Progress)
    returns (ok: bool, ghost calls': seq<Call>)
    requires Doing(s, D, p, goal, calls, g)
    requires s.bytes_left > 0 && s.buffer[s.buf_ptr] == EQUALS && p in D.handlers && D.handlers[p] == h
    modifies s
    ensures s.Same(old(s.buffer), old(s.memory)) && s.bytes_left < old(s.bytes_left)
    ensures ok ==> Doing(s, D, [], goal, calls', g)
    ensures !ok ==> Exited(s, goal, g)
  {
    ghost var before := s.Stand();
    s.buf_ptr := s.buf_ptr + 1;
    s.bytes_left := s.bytes_left - 1;
    ghost var call := Call(h, s.buf_ptr);
    calls' := calls + [call];
    ok := s.RunHandler(h);
    GrownTwice(g, s.Reads(), calls, [call], s.buffer);
    CallResult(D, s.buffer, p, call, goal, calls);
  }

  /** What the scan says of the call. */
  lemma CallResult(D: Dict, buf: Key, p: Key, call: Call, goal: Outcome, calls: seq<Call>)
    requires 1 <= call.at <= |buf| && buf[call.at - 1] == EQUALS && p in D.handlers && D.handlers[p] == call.handler
    requires goal == PrependAll(calls, Scan(D, p, buf, call.at - 1))
    ensures
      if ReadsArgs(call.handler) && ReturnFrom(buf, call.at) == |buf| then goal.exited && goal.calls == calls + [call]
      else goal == PrependAll(calls + [call], Scan(D, [], buf, Resume(call.handler, buf, call.at)))
  {
    if ReadsArgs(call.handler) && ReturnFrom(buf, call.at) == |buf| {
      ScanExit(D, buf, p, call.at - 1);
    } else {
      ScanCall(D, buf, p, call.at - 1);
      CallDone(calls, call, Scan(D, [], buf, Resume(call.handler, buf, call.at)));
    }
  }

  /** The session stopped where the scan of the datagram says it does. */
  ghost predicate Exited(s: Session, goal: Outcome, g: Progress)
    reads s
  {
    goal.exited && s.Stand() == Grown(g, s.Reads(), goal.calls, s.buffer)
  }

  /** Any other byte: the node moves on, or back to the root. */
  method PassByte(t: TernaryTrie, n: Node, c: Char, ghost p: Key) returns (n': Node)
    requires t.root != null && Stands(t, n, p) && (c == EQUALS ==> n.handler == None)
    ensures Stands(t, n', if c == EQUALS then [] else NextState(DictOf(t), p, c))
  {
    if c == EQUALS {
      n' := Root(t);
    } else {
      assert t.PlaceOk(n);
      var m := t.TraverseToChildChar(c, n);
      if m == null {
        n' := Root(t);
      } else {
        n' := m;
      }
    }
  }

  /** A byte that calls no handler is passed over. */
  method SkipByte(t: TernaryTrie, s: Session, n: Node, ghost D: Dict, ghost p: Key, ghost goal: Outcome,
                  ghost calls: seq<Call>, ghost g: Progress)
    returns (n': Node, ghost p': Key)
    requires t.root != null && Stands(t, n, p) && D == DictOf(t)
    requires Doing(s, D, p, goal, calls, g) && s.bytes_left > 0
    requires s.buffer[s.buf_ptr] == EQUALS ==> n.handler == None
    modifies s
    ensures s.Same(old(s.buffer), old(s.memory)) && s.bytes_left < old(s.bytes_left)
    ensures Stands(t, n', p') && Doing(s, D, p', goal, calls, g)
  {
    var c := s.buffer[s.buf_ptr];
    HandlerOf(t, n, p);
    n' := PassByte(t, n, c, p);
    p' := if c == EQUALS then [] else NextState(D, p, c);
    NextByte(s, D, p, p', goal, calls, g);
  }

  method NextByte(s: Session, ghost D: Dict, ghost p: Key, ghost q: Key, ghost goal: Outcome, ghost calls: seq<Call>,
                  ghost g: Progress)
    requires Doing(s, D, p, goal, calls, g) && s.bytes_left > 0
    requires s.buffer[s.buf_ptr] == EQUALS ==> p !in D.handlers
    requires q == if s.buffer[s.buf_ptr] == EQUALS then [] else NextState(D, p, s.buffer[s.buf_ptr])
    modifies s`buf_ptr, s`bytes_left
    ensures s.bytes_left < old(s.bytes_left) && Doing(s, D, q, goal, calls, g)
  {
    ghost var buf, pos, stand := s.buffer, s.buf_ptr, s.Stand();
    ScanPass(D, buf, p, pos, q);
    s.buf_ptr := s.buf_ptr + 1;
    s.bytes_left := s.bytes_left - 1;
    assert Scan(D, q, s.buffer, s.buf_ptr) == Scan(D, p, buf, pos) && s.Stand() == stand;
  }

  /** One byte of the dispatch loop. */
  method HandleByte(t: TernaryTrie, s: Session, n: Node, ghost D: Dict, ghost p: Key, ghost goal: Outcome,
                    ghost calls: seq<Call>, ghost g: Progress)
    returns (n': Node, ok: bool, ghost p': Key, ghost calls': seq<Call>)
    requires t.root != null && Stands(t, n, p) && D == DictOf(t)
    requires Doing(s, D, p, goal, calls, g) && s.bytes_left > 0
    modifies s
    ensures s.Same(old(s.buffer), old(s.memory)) && s.bytes_left < old(s.bytes_left)
    ensures if ok then Stands(t, n', p') && Doing(s, D, p', goal, calls', g) else Exited(s, goal, g)
  {
    var c := s.buffer[s.buf_ptr];
    HandlerOf(t, n, p);
    if c == EQUALS && n.handler.Some? {
      ok, calls' := CallHandler(s, n.handler.value, D, p, goal, calls, g);
      n' := Root(t);
      p' := [];
    } else {
      n', p' := SkipByte(t, s, n, D, p, goal, calls, g);
      ok, calls' := true, calls;
    }
  }

  /** The dispatch loop over one datagram: the trie node n stands for the letters matched so far. */
  method HandleDatagram(t: TernaryTrie, s: Session, n0: Node, ghost p0: Key) returns (n: Node, ghost p: Key, ok: bool)
    requires t.root != null && Stands(t, n0, p0)
    requires s.Valid() && s.buf_ptr == 0
    modifies s
    ensures s.Same(old(s.buffer), old(s.memory)) && ok == !Scan(DictOf(t), p0, s.buffer, 0).exited
    ensures ok ==> s.Valid() && s.bytes_left == 0 && p == Scan(DictOf(t), p0, s.buffer, 0).state && Stands(t, n, p)
    ensures s.Stand() == Grown(old(s.Stand()), s.Reads(), Scan(DictOf(t), p0, s.buffer, 0).calls, s.buffer)
  {
    ghost var D := DictOf(t);
    ghost var goal := Scan(D, p0, s.buffer, 0);
    ghost var calls: seq<Call> := [];
    ghost var g := s.Stand();
    GrownByNone(g, s.Reads(), s.buffer);
    n, p, ok := n0, p0, true;
    while s.bytes_left > 0
      invariant s.Same(old(s.buffer), old(s.memory)) && Stands(t, n, p)
      invariant Doing(s, D, p, goal, calls, g)
      decreases s.bytes_left
    {
      n, ok, p, calls := HandleByte(t, s, n, D, p, goal, calls, g);
      if !ok {
        return;
      }
    }
    AllDone(s, D, p, goal, calls, g);
  }

  /** At the end of the datagram. */
  lemma AllDone(s: Session, D: Dict, p: Key, goal: Outcome, calls: seq<Call>, g: Progress)
    requires Doing(s, D, p, goal, calls, g) && s.bytes_left == 0
    ensures goal == Outcome(calls, p, false) && s.Stand() == Grown(g, s.Reads(), goal.calls, s.buffer)
  {
    assert calls + [] == calls;
  }

  method Root(t: TernaryTrie) returns (n: Node)
    requires t.Valid() && t.root != null
    ensures Stands(t, n, [])
  {
    n := t.root;
    t.RootReached();
    assert t.PlaceOk(n);
  }

  /** step is what the dispatcher does with a datagram. */
  ghost predicate Dispatches(step: (Left, Key) -> Step, D: Dict, parse: Key -> Fields) {
    forall l, d {:trigger StepOf(D, parse, l, d)} :: step(l, d) == StepOf(D, parse, l, d)
  }

  /** recvfrom into the buffer of the session. */
  method RecvFrom(s: Session, d: Key) returns (n: nat)
    modifies s`memory
    ensures n == |Received(d)| <= |s.memory| && s.memory[..n] == Received(d)
    ensures n == if |d| <= 300 then |d| else 300
    ensures forall k :: 0 <= k < |s.memory| ==>
      if k < n then s.memory[k] == d[k] else k < |old(s.memory)| && s.memory[k] == old(s.memory)[k]
    ensures s.memory == Overwritten(old(s.memory), d)
  {
    n := if |d| <= BUF_SIZE then |d| else BUF_SIZE;
    s.memory := d[..n] + if n <= |s.memory| then s.memory[n..] else [];
    assert d[..n] == Received(d);
  }

  /** One turn of the outer loop: a datagram is received, or the program exits; then the loop over its bytes. */
  method Receive(t: TernaryTrie, s: Session, n0: Node, d: Key, ghost p: Key, ghost now: Step)
    returns (n: Node, ok: bool)
    requires t.root != null && Stands(t, n0, p) && now == StepOf(DictOf(t), s.parse, Left(p, s.memory), d)
    modifies s
    ensures ok == !now.exited && (ok ==> Stands(t, n, now.state.node) && s.memory == now.state.memory)
    ensures s.Stand() == Advance(old(s.Stand()), now)
  {
    var size := RecvFrom(s, d);
    if size < 1 {
      AdvanceByNone(s.Stand(), now.state, true);
      return n0, false;
    }
    n, ok := HandleReceived(t, s, n0, size, p);
  }

  method HandleReceived(t: TernaryTrie, s: Session, n0: Node, size: nat, ghost p: Key) returns (n: Node, ok: bool)
    requires t.root != null && Stands(t, n0, p) && size <= |s.memory|
    modifies s
    ensures s.memory == old(s.memory)
    ensures var o := Scan(DictOf(t), p, old(s.memory[..size]), 0); ok == !o.exited && (ok ==> Stands(t, n, o.state))
    ensures var buf := old(s.memory[..size]);
      s.Stand() == Grown(old(s.Stand()), ReadsOf(s.parse, old(s.memory)), Scan(DictOf(t), p, buf, 0).calls, buf)
  {
    s.buffer, s.buf_ptr, s.bytes_left := s.memory[..size], 0, size;
    ghost var q;
    n, q, ok := HandleDatagram(t, s, n0, p);
  }

  /** control_listen over a sequence of received datagrams. */
  method ControlListen(t: TernaryTrie, s: Session, datagrams: seq<Key>, ghost step: (Left, Key) -> Step)
    requires t.Valid() && t.root != null && Dispatches(step, DictOf(t), s.parse)
    modifies s
    ensures s.Stand() == Advance(old(s.Stand()), RunAll(step, Left([], old(s.memory)), datagrams))
  {
    ghost var p: Key := [];
    var n := Root(t);
    ghost var start := s.Stand();
    ghost var goal := Advance(start, RunAll(step, Left([], s.memory), datagrams));
    assert datagrams[0..] == datagrams;
    var i := 0;
    while i < |datagrams|
      invariant 0 <= i <= |datagrams| && Stands(t, n, p)
      invariant Advance(s.Stand(), RunAll(step, Left(p, s.memory), datagrams[i..])) == goal
    {
      ghost var now, before := step(Left(p, s.memory), datagrams[i]), s.Stand();
      assert datagrams[i..][0] == datagrams[i] && datagrams[i..][1..] == datagrams[i + 1..];
      AdvanceTwice(before, now, RunAll(step, now.state, datagrams[i + 1..]));
      assert now == StepOf(DictOf(t), s.parse, Left(p, s.memory), datagrams[i]);
      var ok;
      n, ok := Receive(t, s, n, datagrams[i], p, now);
      if !ok {
        return;
      }
      p := now.state.node;
      i := i + 1;
    }
    AdvanceByNone(s.Stand(), Left(p, s.memory), false);
  }
}
