// Connections, bandwidth and feeds of ffserver.c: the operations that add, change and close connections, and the
// agreement of the global counters and of the feeds' marks with the list of connections.
module FFServer {
  import opened Sums

  datatype StreamType = Live | Status | Redirect

  datatype ConnState =
    | WaitRequest | SendHeader | SendDataHeader | SendData | SendDataTrailer | ReceiveData | WaitFeed | Ready
    | RtspWaitRequest | RtspSendReply | RtspSendPacket

  class FFStream {
    const kind: StreamType
    const bandwidth: nat
    const is_feed: bool
    const readonly: bool
    const feed: FFStream?
    var feed_opened: bool

    constructor (kind: StreamType, bandwidth: nat, is_feed: bool, readonly: bool, feed: FFStream?)
      ensures this.kind == kind && this.bandwidth == bandwidth && this.is_feed == is_feed
      ensures this.readonly == readonly && this.feed == feed && !feed_opened
    {
      this.kind, this.bandwidth, this.is_feed, this.readonly, this.feed := kind, bandwidth, is_feed, readonly, feed;
      feed_opened := false;
    }
  }

  class HTTPContext {
    const rtp: bool              // a session made by SETUP, known by its session id
    var state: ConnState
    var stream: FFStream?
    var post: bool
    var rtsp_c: HTTPContext?

    constructor (rtp: bool, state: ConnState, stream: FFStream?)
      ensures this.rtp == rtp && this.state == state && this.stream == stream && !post && rtsp_c == null
    {
      this.rtp, this.state, this.stream, post, rtsp_c := rtp, state, stream, false, null;
    }
  }

  predicate IsRtsp(state: ConnState) {
    state in {RtspWaitRequest, RtspSendReply, RtspSendPacket}
  }

  datatype Verb = Get | Post | OtherVerb

  /** What the rest of the server makes of a request: the stream its name selects, whether it asks for a redirector
      file, and whether the feed file or the input stream can be opened. */
  datatype Request = Request(verb: Verb, versionOk: bool, stream: FFStream?, redirector: bool, openOk: bool)

  /** What handling a connection comes to: nothing that matters here; for an RTSP connection the SETUP of a new
      session, over TCP or not, or of one more stream of a session, or the TEARDOWN of a session; for a new HTTP
      connection its request; for a feeder the failure to receive; or any failure. A session is named by its place in
      the list. */
  datatype Event =
    | Nothing
    | Setup(live: FFStream, tcp: bool)
    | SetupMore(session: nat)
    | Teardown(session: nat)
    | Parse(req: Request)
    | ReceiveFails
    | Fails

  /** The state of a connection moves on. */
  datatype Move = Move(at: nat, next: ConnState)

  /** One visit of the loop: the states it moves on, of whatever connection, and what it comes to. */
  datatype Action = Action(moves: seq<Move>, event: Event)

  /** One round of the server's loop: a pass over the list and the connections accepted after it, RTSP or not. */
  datatype Round = Round(actions: seq<Action>, accepts: seq<bool>)

  // ---- The list ----

  function Without(s: seq<HTTPContext>, x: HTTPContext?): (r: seq<HTTPContext>)
    ensures forall d :: d in r ==> d in s && d != x
    ensures forall d :: d in s && d != x ==> d in r
    ensures |r| <= |s|
  {
    if s == [] then [] else (if s[0] == x then [] else [s[0]]) + Without(s[1..], x)
  }

  lemma {:induction false} WithoutAppend(s: seq<HTTPContext>, t: seq<HTTPContext>, x: HTTPContext?)
    ensures Without(s + t, x) == Without(s, x) + Without(t, x)
  {
    if s == [] {
      assert s + t == t;
    } else {
      assert (s + t)[1..] == s[1..] + t;
      WithoutAppend(s[1..], t, x);
    }
  }

  lemma {:induction false} WithoutAbsent(s: seq<HTTPContext>, x: HTTPContext?)
    requires x !in s
    ensures Without(s, x) == s
  {
    if s == [] {
    } else {
      WithoutAbsent(s[1..], x);
    }
  }

  ghost predicate NoRepeats(s: seq<HTTPContext>) {
    forall i, j :: 0 <= i < j < |s| ==> s[i] != s[j]
  }

  lemma {:induction false} WithoutAt(s: seq<HTTPContext>, i: nat)
    requires NoRepeats(s) && i < |s|
    ensures Without(s, s[i]) == s[..i] + s[i + 1..]
  {
    if i == 0 {
      WithoutAbsent(s[1..], s[0]);
    } else {
      WithoutAt(s[1..], i - 1);
      assert s[1..][..i - 1] + s[1..][i..] == s[1..i] + s[i + 1..];
      assert [s[0]] + (s[1..i] + s[i + 1..]) == s[..i] + s[i + 1..];
    }
  }

  lemma {:induction false} WithoutDistinct(s: seq<HTTPContext>, x: HTTPContext?)
    requires NoRepeats(s)
    ensures NoRepeats(Without(s, x))
  {
    if s == [] {
    } else {
      WithoutDistinct(s[1..], x);
      assert s[0] !in s[1..];
    }
  }

  lemma WithoutOne(s: seq<HTTPContext>, x: HTTPContext)
    requires NoRepeats(s) && x in s
    ensures NoRepeats(Without(s, x)) && |Without(s, x)| == |s| - 1
  {
    var i: nat :| i < |s| && s[i] == x;
    WithoutAt(s, i);
    WithoutDistinct(s, x);
  }

  /** One step of the walk that unlinks x: behind the part walked, the rest of the list as it was. */
  lemma WalkStep(s: seq<HTTPContext>, k: nat, x: HTTPContext?)
    requires k < |s|
    ensures var kept := Without(s[..k], x); var list := kept + s[k..];
      && list[|kept|] == s[k]
      && Without(s[..k + 1], x) == (if s[k] == x then kept else kept + [s[k]])
      && (if s[k] == x then list[..|kept|] + list[|kept| + 1..] else list) == Without(s[..k + 1], x) + s[k + 1..]
  {
    assert s[..k + 1] == s[..k] + [s[k]];
    WithoutAppend(s[..k], [s[k]], x);
  }

  /** The connection behind c in a list, as c->next. */
  function Successor(s: seq<HTTPContext>, c: HTTPContext): (next: HTTPContext?)
    requires c in s
    ensures next != null ==> next in s[1..]
  {
    if s[0] != c then Successor(s[1..], c) else if |s| == 1 then null else s[1]
  }

  lemma {:induction false} SuccessorAt(s: seq<HTTPContext>, i: nat)
    requires NoRepeats(s) && i < |s|
    ensures Successor(s, s[i]) == if i + 1 == |s| then null else s[i + 1]
  {
    if i == 0 {
    } else {
      SuccessorAt(s[1..], i - 1);
    }
  }

  /** If the successor of place at stays when one is removed, it is nearer to the end than at was. */
  lemma SuccessorStays(s: seq<HTTPContext>, at: nat, gone: HTTPContext?) returns (now: nat)
    requires NoRepeats(s) && at + 1 < |s| && gone != s[at + 1]
    ensures now < |Without(s, gone)| && Without(s, gone)[now] == s[at + 1]
    ensures |Without(s, gone)| - now < |s| - at
  {
    assert s == s[..at + 1] + s[at + 1..];
    WithoutAppend(s[..at + 1], s[at + 1..], gone);
    assert Without(s[at + 1..], gone)[0] == s[at + 1];
    now := |Without(s[..at + 1], gone)|;
  }

  /** A visit of the loop: the connection, the list when it was visited, the successor saved before it was handled,
      the connection that was closed, if any, and whether a TEARDOWN closed it. */
  datatype Visit = Visit(c: HTTPContext, list: seq<HTTPContext>, saved: HTTPContext?, gone: HTTPContext?, torn: bool)

  /** The visit tore down the very connection the loop goes to next. */
  predicate HitsSaved(v: Visit) {
    v.torn && v.gone != null && v.gone == v.saved
  }

  predicate Listed(v: Visit) {
    v.c in v.list
  }

  ghost predicate NoneHitsSaved(visits: seq<Visit>) {
    forall k :: 0 <= k < |visits| ==> !HitsSaved(visits[k])
  }

  ghost predicate AllListed(visits: seq<Visit>) {
    forall k :: 0 <= k < |visits| ==> Listed(visits[k])
  }

  /** The list changes by one connection gone, or at most one put in front. */
  ghost predicate Changes(before: seq<HTTPContext>, gone: HTTPContext?, after: seq<HTTPContext>) {
    if gone != null then gone in before && after == Without(before, gone)
    else after == before || (|after| > 0 && after[0] !in before && after[1..] == before)
  }

  /** A visit of a connection in the list; only a TEARDOWN closes another than the one visited. */
  ghost predicate Regular(v: Visit) {
    && NoRepeats(v.list) && Listed(v) && v.saved == Successor(v.list, v.c)
    && (if v.torn then v.gone != null else v.gone == null || v.gone == v.c)
  }

  /** The visits of a pass: from the head of the list on, each goes where the one before it saved. */
  ghost predicate Chained(visits: seq<Visit>, start: seq<HTTPContext>) {
    && (visits != [] ==> visits[0].list == start && start != [] && visits[0].c == start[0])
    && forall k :: 0 <= k < |visits| - 1 ==>
         Regular(visits[k]) && visits[k + 1].c == visits[k].saved &&
         Changes(visits[k].list, visits[k].gone, visits[k + 1].list)
  }

  /** From c to the end of the list. */
  ghost function Ahead(s: seq<HTTPContext>, c: HTTPContext): (r: nat)
    requires c in s
    ensures 1 <= r
  {
    if s[0] == c then |s| else Ahead(s[1..], c)
  }

  lemma {:induction false} AheadAt(s: seq<HTTPContext>, i: nat)
    requires NoRepeats(s) && i < |s|
    ensures Ahead(s, s[i]) == |s| - i
  {
    if i == 0 {
    } else {
      AheadAt(s[1..], i - 1);
    }
  }

  /** The successor saved is still in the list exactly if the visit did not tear it down, and then it is nearer to the
      end than the connection visited was. */
  lemma GoesOn(v: Visit, after: seq<HTTPContext>)
    requires Regular(v) && Changes(v.list, v.gone, after) && NoRepeats(after) && v.saved != null
    ensures v.saved in after <==> !HitsSaved(v)
    ensures v.saved in after ==> Ahead(after, v.saved) < Ahead(v.list, v.c)
  {
    var s := v.list;
    var i: nat :| i < |s| && s[i] == v.c;
    SuccessorAt(s, i);
    AheadAt(s, i);
    AheadAt(s, i + 1);
    if v.gone != null && v.gone != v.saved {
      var now := SuccessorStays(s, i, v.gone);
      AheadAt(after, now);
    }
  }

  /** The pass has made these visits; the list is now this, and c is next. */
  ghost predicate SoFar(visits: seq<Visit>, start: seq<HTTPContext>, list: seq<HTTPContext>, c: HTTPContext?) {
    && Chained(visits, start) && NoneHitsSaved(visits) && AllListed(visits)
    && if visits == [] then list == start && c == (if start == [] then null else start[0])
       else
         var v := visits[|visits| - 1];
         Regular(v) && Changes(v.list, v.gone, list) && v.saved == c
  }

  lemma VisitAdded(visits: seq<Visit>, start: seq<HTTPContext>, v: Visit, after: seq<HTTPContext>)
    requires SoFar(visits, start, v.list, v.c) && Regular(v) && Changes(v.list, v.gone, after)
    ensures Chained(visits + [v], start)
    ensures !HitsSaved(v) ==> SoFar(visits + [v], start, after, v.saved)
  {
    var all := visits + [v];
    assert all[|visits|] == v && forall k :: 0 <= k < |visits| ==> all[k] == visits[k];
    if visits == [] {
      assert start != [] && v.c == start[0];
    } else {
      assert all[|visits| - 1] == visits[|visits| - 1];
    }
  }

  ghost predicate Broken(visits: seq<Visit>, start: seq<HTTPContext>) {
    Chained(visits, start) && !NoneHitsSaved(visits) && !AllListed(visits)
  }

  /** The visit that cannot be made. */
  lemma PassBroken(visits: seq<Visit>, start: seq<HTTPContext>, v: Visit, after: seq<HTTPContext>, c: HTTPContext)
    requires Chained(visits + [v], start) && Regular(v) && Changes(v.list, v.gone, after)
    requires HitsSaved(v) && v.saved == c && c !in after
    ensures Broken(visits + [v] + [Visit(c, after, null, null, false)], start)
  {
    var w := Visit(c, after, null, null, false);
    var all := visits + [v] + [w];
    assert all[|visits|] == v && all[|visits| + 1] == w;
    assert forall k :: 0 <= k < |visits| ==> all[k] == (visits + [v])[k];
  }

  class Server {
    var connections: seq<HTTPContext>       // the list from first_http_ctx on
    var nb_connections: int
    const nb_max_connections: int
    var current_bandwidth: int
    const max_bandwidth: nat
    const streams: set<FFStream>            // the streams and feeds of the configuration

    constructor (nb_max_connections: nat, max_bandwidth: nat, streams: set<FFStream>)
      requires forall s :: s in streams ==> !s.feed_opened
      ensures Valid() && connections == [] && this.streams == streams
      ensures this.nb_max_connections == nb_max_connections && this.max_bandwidth == max_bandwidth
    {
      connections, nb_connections, current_bandwidth := [], 0, 0;
      this.nb_max_connections, this.max_bandwidth, this.streams := nb_max_connections, max_bandwidth, streams;
    }

    /** The bandwidth a connection is charged with: that of its live stream, unless it is a POST. */
    function Charge(c: HTTPContext): (r: int)
      reads c
    {
      if c.stream != null && !c.post && c.stream.kind == Live then c.stream.bandwidth else 0
    }

    ghost function Charges(): (r: seq<int>)
      reads this, connections
      ensures |r| == |connections|
    {
      seq(|connections|, i requires 0 <= i < |connections| reads this, connections => Charge(connections[i]))
    }

    ghost predicate Feeds(c: HTTPContext, s: FFStream)
      reads c
    {
      c.state == ReceiveData && c.stream == s
    }

    ghost predicate IsFed(s: FFStream)
      reads this, connections
    {
      exists c :: c in connections && Feeds(c, s)
    }

    ghost predicate Distinct()
      reads this
    {
      NoRepeats(connections)
    }

    ghost predicate Counted()
      reads this, connections
    {
      Distinct() && nb_connections == |connections| <= nb_max_connections && current_bandwidth == Sum(Charges())
    }

    /** A feed is marked opened exactly when a connection is feeding it, and then exactly one is. The mark of the feed
        of a connection about to be closed may already be off. */
    ghost predicate FeedsAgree(closing: HTTPContext?)
      reads this, connections, streams, closing
    {
      && (forall s :: s in streams && !(closing != null && Feeds(closing, s)) ==> (s.feed_opened <==> IsFed(s)))
      && (forall c, d :: c in connections && d in connections ==>
            c.state == d.state == ReceiveData && c.stream == d.stream ==> c == d)
    }

    ghost predicate ConnectionOk(c: HTTPContext)
      reads this, c
    {
      && (c.rtsp_c != null ==> c.rtsp_c in connections)
      && (c.stream != null ==> c.stream in streams)
      && (c.state == ReceiveData || c.state == WaitFeed ==> c.stream != null)
      && (c.state == ReceiveData ==> c.post)
      && (c.state == WaitRequest ==> c.stream == null)
      && (c.rtp ==> !IsRtsp(c.state) && c.state != WaitRequest && c.state != ReceiveData)
    }

    ghost predicate ValidBut(closing: HTTPContext?)
      reads this, connections, streams, closing
    {
      Counted() && FeedsAgree(closing) && forall c {:trigger ConnectionOk(c)} :: c in connections ==> ConnectionOk(c)
    }

    ghost predicate Valid()
      reads this, connections, streams
    {
      ValidBut(null)
    }

    // How one changed connection moves the sum of charges and the feeders.

    twostate lemma ChargeMoves(c: HTTPContext)
      requires old(Distinct()) && connections == old(connections) && c in connections
      requires forall d :: d in connections && d != c ==> d.stream == old(d.stream) && d.post == old(d.post)
      ensures Sum(Charges()) == old(Sum(Charges())) - old(Charge(c)) + Charge(c)
    {
      var i :| 0 <= i < |connections| && connections[i] == c;
      ghost var before := old(Charges());
      assert Charges() == before[i := Charge(c)];
      SumUpdate(before, i, Charge(c));
    }

    /** The same connections feed s. */
    twostate lemma FedStays(s: FFStream)
      requires forall d :: d in old(connections) && old(Feeds(d, s)) ==> d in connections && Feeds(d, s)
      requires forall d :: d in connections && Feeds(d, s) ==> d in old(connections) && old(Feeds(d, s))
      ensures IsFed(s) == old(IsFed(s))
    {
      if old(IsFed(s)) {
        var d :| d in old(connections) && old(Feeds(d, s));
        assert d in connections && Feeds(d, s);
      }
    }

    /** Nothing about feeds has changed. */
    twostate lemma FeedsUnmoved()
      requires old(FeedsAgree(null)) && connections == old(connections)
      requires forall d :: d in connections ==> (d.state == ReceiveData <==> old(d.state) == ReceiveData)
      requires forall d :: d in connections && d.state == ReceiveData ==> d.stream == old(d.stream)
      requires forall s :: s in streams ==> s.feed_opened == old(s.feed_opened)
      ensures FeedsAgree(null)
    {
      forall s | s in streams
        ensures IsFed(s) == old(IsFed(s))
      {
        FedStays(s);
      }
    }

    twostate lemma FeederAdded(c: HTTPContext)
      requires old(FeedsAgree(null)) && connections == old(connections) && c in connections
      requires forall d :: d in connections && d != c ==> d.stream == old(d.stream) && d.state == old(d.state)
      requires old(c.state) != ReceiveData && c.state == ReceiveData && c.stream in streams
      requires forall s :: s in streams && Feeds(c, s) ==> !old(s.feed_opened) && s.feed_opened
      requires forall s :: s in streams && !Feeds(c, s) ==> s.feed_opened == old(s.feed_opened)
      ensures FeedsAgree(null)
    {
      var fed: FFStream :| fed in streams && fed == c.stream;
      assert c in connections && Feeds(c, fed) && IsFed(fed);
      forall s | s in streams && !Feeds(c, s)
        ensures IsFed(s) == old(IsFed(s))
      {
        FedStays(s);
      }
      assert !old(IsFed(fed));
    }

    // Adding a connection

    /** Puts a new connection at the head of the list; the caller has charged for it, or not. */
    method AddFirst(c: HTTPContext, charged: int)
      requires Valid() && c !in connections && nb_connections < nb_max_connections
      requires c.rtsp_c == null && c.state in {WaitRequest, RtspWaitRequest, Ready}
      requires (c.state == WaitRequest ==> c.stream == null)
      requires c.rtp ==> c.state == Ready
      requires c.stream != null ==> c.stream in streams
      modifies this`connections, this`nb_connections, this`current_bandwidth
      ensures connections == [c] + old(connections) && nb_connections == old(nb_connections) + 1
      ensures current_bandwidth == old(current_bandwidth) + charged
      ensures Valid() <==> charged == Charge(c)
    {
      ghost var before := Charges();
      connections := [c] + connections;
      nb_connections := nb_connections + 1;
      current_bandwidth := current_bandwidth + charged;
      assert Charges() == [Charge(c)] + before;
      SumAppend([Charge(c)], before);
      assert Sum([Charge(c)]) == Charge(c);
      NewcomerAgrees(c);
    }

    twostate lemma NewcomerAgrees(c: HTTPContext)
      requires old(Valid()) && connections == [c] + old(connections) && c.state != ReceiveData && ConnectionOk(c)
      requires forall d :: d in old(connections) ==> unchanged(d)
      requires forall s :: s in streams ==> s.feed_opened == old(s.feed_opened)
      ensures FeedsAgree(null) && forall d {:trigger ConnectionOk(d)} :: d in connections ==> ConnectionOk(d)
    {
      forall s | s in streams
        ensures IsFed(s) == old(IsFed(s))
      {
        FedStays(s);
      }
      assert forall d :: d in old(connections) ==> old(ConnectionOk(d));
    }

    /** new_connection: refused when the limit is reached. */
    method NewConnection(is_rtsp: bool) returns (c: HTTPContext?)
      requires Valid()
      modifies this`connections, this`nb_connections, this`current_bandwidth
      ensures Valid() && current_bandwidth == old(current_bandwidth)
      ensures c == null <==> old(nb_connections) >= nb_max_connections
      ensures c == null ==> connections == old(connections)
      ensures c != null ==> fresh(c) && connections == [c] + old(connections)
      ensures c != null ==> c.state == (if is_rtsp then RtspWaitRequest else WaitRequest) && c.stream == null && !c.rtp
    {
      if nb_connections >= nb_max_connections {
        return null;
      }
      c := new HTTPContext(false, if is_rtsp then RtspWaitRequest else WaitRequest, null);
      AddFirst(c, 0);
    }

    /** rtp_new_connection charges for the stream whatever its type is: the bandwidth stays the sum of the charges
        exactly when the connection is refused, the stream is live, or it has no bandwidth. */
    method RtpNewConnection(stream: FFStream) returns (c: HTTPContext?)
      requires Valid() && stream in streams
      modifies this`connections, this`nb_connections, this`current_bandwidth
      ensures Valid() <==> c == null || stream.kind == Live || stream.bandwidth == 0
      ensures c == null <==> old(nb_connections) >= nb_max_connections
      ensures c == null ==> connections == old(connections) && current_bandwidth == old(current_bandwidth)
      ensures c != null ==>
        fresh(c) && connections == [c] + old(connections) && c.rtp && c.stream == stream && c.state == Ready
      ensures c != null ==> current_bandwidth == old(current_bandwidth) + stream.bandwidth
    {
      if nb_connections >= nb_max_connections {
        return null;
      }
      c := new HTTPContext(true, Ready, stream);
      AddFirst(c, stream.bandwidth);
    }

    // Changing a connection

    /** rtp_new_av_stream over TCP: the packets go through the RTSP connection. */
    method RtpNewAvStream(c: HTTPContext, carrier: HTTPContext)
      requires Valid() && c in connections && carrier in connections
      modifies c`rtsp_c
      ensures Valid() && c.rtsp_c == carrier
    {
      c.rtsp_c := carrier;
      assert Charges() == old(Charges());
      FeedsUnmoved();
      assert forall d :: d in connections ==> old(ConnectionOk(d));
    }

    /** The state changes of a connection that has a request and is not feeding. */
    method AdvanceState(c: HTTPContext, next: ConnState)
      requires Valid() && c in connections && c.state != WaitRequest && c.state != ReceiveData
      requires next != WaitRequest && next != ReceiveData && (next == WaitFeed ==> c.stream != null)
      requires IsRtsp(next) == IsRtsp(c.state)
      modifies c`state
      ensures Valid() && c.state == next && unchanged(this)
    {
      c.state := next;
      assert Charges() == old(Charges());
      FeedsUnmoved();
      assert forall d :: d in connections ==> old(ConnectionOk(d));
    }

    /** http_start_receive_data: false when the feed is in use, may not be written, or cannot be opened. */
    method HttpStartReceiveData(feed: FFStream, openOk: bool) returns (ok: bool)
      modifies feed`feed_opened
      ensures ok <==> !old(feed.feed_opened) && !feed.readonly && openOk
      ensures feed.feed_opened == (ok || old(feed.feed_opened))
    {
      if feed.feed_opened {
        return false;
      }
      if feed.readonly || !openOk {
        return false;
      }
      feed.feed_opened := true;
      return true;
    }

    /** http_parse_request. The result is false where the caller must close the connection. */
    method HttpParseRequest(c: HTTPContext, req: Request) returns (ok: bool)
      requires Valid() && c in connections && c.state == WaitRequest
      requires req.stream != null ==> req.stream in streams
      modifies this`current_bandwidth, c, streams
      ensures Valid()
      ensures ok <==> req.verb != OtherVerb && req.versionOk
      ensures c.state == ReceiveData <==>
        && req.versionOk && req.verb == Post && req.stream != null && req.stream.kind != Redirect
        && !old(req.stream.feed_opened) && !req.redirector && req.stream.is_feed && !req.stream.readonly && req.openOk
      ensures c.state != ReceiveData ==> c.state == if ok then SendHeader else WaitRequest
      ensures current_bandwidth - old(current_bandwidth)
           == if ok && req.stream != null && req.stream.kind == Live && req.verb == Get then req.stream.bandwidth else 0
      ensures ok && (c.state == ReceiveData || req.verb == Get) ==> c.stream == req.stream
      ensures !ok ==> c.stream == null
    {
      ok := ReadRequestLine(c, req);
      if ok {
        ParseForStream(c, req);
      }
    }

    /** The method and protocol words of the request. */
    method ReadRequestLine(c: HTTPContext, req: Request) returns (ok: bool)
      requires Valid() && c in connections && c.state == WaitRequest
      modifies c`post
      ensures Valid() && Charge(c) == 0
      ensures ok <==> req.verb != OtherVerb && req.versionOk
      ensures ok ==> c.post == (req.verb == Post)
      ensures c.stream == null
    {
      assert ConnectionOk(c);
      match req.verb {
        case Get => c.post := false;
        case Post => c.post := true;
        case OtherVerb =>
      }
      ok := req.verb != OtherVerb && req.versionOk;
      assert Charges() == old(Charges());
      FeedsUnmoved();
      assert forall d :: d in connections ==> old(ConnectionOk(d));
    }

    /** The rest of http_parse_request, once the request line was read. */
    method ParseForStream(c: HTTPContext, req: Request)
      requires Valid() && c in connections && c.state == WaitRequest && req.verb != OtherVerb
      requires c.post == (req.verb == Post)
      requires req.stream != null ==> req.stream in streams
      modifies this`current_bandwidth, c, streams
      ensures Valid()
      ensures c.state
           == if Accepted(req, old(req.stream != null && req.stream.feed_opened)) then ReceiveData else SendHeader
      ensures current_bandwidth == old(current_bandwidth) + Charge(c)
      ensures c.state == ReceiveData || req.verb == Get ==> c.stream == req.stream
      ensures c.post == (req.verb == Post) && (c.stream == null || c.stream == req.stream)
    {
      assert ConnectionOk(c);
      AnswerFor(c, req);
      ParseKeeps(c);
    }

    /** Only c, the bandwidth and the mark of the feed that c now feeds have changed. */
    twostate lemma ParseKeeps(c: HTTPContext)
      requires old(Valid()) && c in old(connections) && connections == old(connections)
      requires old(c.state) == WaitRequest && c.rtsp_c == old(c.rtsp_c) && nb_connections == old(nb_connections)
      requires forall d :: d in connections && d != c ==> unchanged(d)
      requires current_bandwidth == old(current_bandwidth) + Charge(c)
      requires c.stream != null ==> c.stream in streams
      requires c.state == SendHeader || (c.state == ReceiveData && c.post && c.stream != null)
      requires forall s :: s in streams && Feeds(c, s) ==> !old(s.feed_opened) && s.feed_opened
      requires forall s :: s in streams && !Feeds(c, s) ==> s.feed_opened == old(s.feed_opened)
      ensures Valid()
    {
      assert old(ConnectionOk(c));
      ChargeMoves(c);
      if c.state == ReceiveData {
        FeederAdded(c);
      } else {
        FeedsUnmoved();
      }
      assert forall d :: d in connections && d != c ==> old(ConnectionOk(d));
    }

    /** A POST to a feed that can be opened for writing starts feeding it. */
    ghost predicate Accepted(req: Request, inUse: bool) {
      && req.stream != null && req.stream.kind != Redirect && !inUse && !req.redirector
      && req.verb == Post && req.stream.is_feed && !req.stream.readonly && req.openOk
    }

    /** What is answered for the stream found. */
    method AnswerFor(c: HTTPContext, req: Request)
      requires c.state == WaitRequest && c.stream == null && req.verb != OtherVerb && c.post == (req.verb == Post)
      modifies this`current_bandwidth, c, req.stream
      ensures c.post == old(c.post) && c.rtsp_c == old(c.rtsp_c)
      ensures c.stream == null || c.stream == req.stream
      ensures req.verb == Get ==> c.stream == req.stream
      ensures current_bandwidth == old(current_bandwidth) + Charge(c)
      ensures c.state
           == if Accepted(req, old(req.stream != null && req.stream.feed_opened)) then ReceiveData else SendHeader
      ensures req.stream != null ==> req.stream.feed_opened == (c.state == ReceiveData || old(req.stream.feed_opened))
      ensures c.state == ReceiveData ==> c.stream == req.stream && !old(req.stream.feed_opened)
    {
      var stream := req.stream;
      if stream == null {
        c.state := SendHeader;
        return;
      }
      c.stream := stream;
      if stream.kind == Redirect {
        c.state := SendHeader;
        return;
      }
      if !c.post && stream.kind == Live {
        current_bandwidth := current_bandwidth + stream.bandwidth;
      }
      if stream.feed_opened {
        c.state := SendHeader;
        return;
      }
      if !c.post && max_bandwidth < current_bandwidth {
        c.state := SendHeader;
        return;
      }
      if req.redirector {
        c.state := SendHeader;
        return;
      }
      if c.post {
        if !stream.is_feed {
          c.stream := null;
          c.state := SendHeader;
          return;
        }
        var started := HttpStartReceiveData(stream, req.openOk);
        c.state := if started then ReceiveData else SendHeader;
        return;
      }
      // Status pages, streams that open and streams that do not: all send a header.
      c.state := SendHeader;
    }

    // Closing a connection

    /** close_connection */
    method CloseConnection(c: HTTPContext)
      requires ValidBut(c) && c in connections
      modifies this`connections, this`nb_connections, this`current_bandwidth, connections, streams
      ensures Valid() && c !in connections
      ensures connections == Without(old(connections), c)
      ensures old(current_bandwidth) - current_bandwidth
           == if old(c.stream) != null && !old(c.post) && old(c.stream).kind == Live then old(c.stream).bandwidth else 0
      ensures forall s :: s in streams ==> s.feed_opened == (old(s.feed_opened) && !old(Feeds(c, s)))
      ensures forall d :: d in connections ==>
        d.state == old(d.state) && d.stream == old(d.stream) && d.post == old(d.post)
      ensures forall d :: d in connections ==> d.rtsp_c == (if old(d.rtsp_c) == c then null else old(d.rtsp_c))
    {
      assert ConnectionOk(c);
      RemoveFromList(c);
      assert forall k :: 0 <= k < |connections| ==> connections[k] in old(connections);
      ForgetCarrier(c);
      current_bandwidth := current_bandwidth - Charge(c);
      if c.state == ReceiveData && c.stream != null {
        c.stream.feed_opened := false;
      }
      nb_connections := nb_connections - 1;
      WithoutOne(old(connections), c);
      RestCharges(c);
      RestAgrees(c);
      RestOk(c);
    }

    twostate lemma RestCharges(c: HTTPContext)
      requires old(Distinct()) && c in old(connections) && connections == Without(old(connections), c)
      requires forall d :: d in old(connections) ==> d.stream == old(d.stream) && d.post == old(d.post)
      ensures Sum(Charges()) == old(Sum(Charges())) - old(Charge(c))
    {
      var before, charges := old(connections), old(Charges());
      var i: nat :| i < |before| && before[i] == c;
      WithoutAt(before, i);
      var rest := charges[..i] + charges[i + 1..];
      forall k | 0 <= k < |connections|
        ensures Charges()[k] == rest[k]
      {
        assert connections[k] == before[if k < i then k else k + 1];
      }
      assert Charges() == rest;
      SumOfRest(charges, i);
    }

    twostate lemma RestOk(c: HTTPContext)
      requires old(ValidBut(c)) && connections == Without(old(connections), c)
      requires forall d :: d in connections ==>
        d.state == old(d.state) && d.stream == old(d.stream) && d.post == old(d.post)
      requires forall d :: d in connections ==> d.rtsp_c == (if old(d.rtsp_c) == c then null else old(d.rtsp_c))
      ensures forall d {:trigger ConnectionOk(d)} :: d in connections ==> ConnectionOk(d)
    {
      forall d | d in connections
        ensures ConnectionOk(d)
      {
        assert d in old(connections) && old(ConnectionOk(d));
        if d.rtsp_c != null {
          var carrier: HTTPContext := d.rtsp_c;
          assert carrier in old(connections) && carrier != c;
        }
      }
    }

    lemma {:induction false} SumOfRest(s: seq<int>, i: nat)
      requires i < |s|
      ensures Sum(s[..i] + s[i + 1..]) == Sum(s) - s[i]
    {
      if i == 0 {
        assert s[..0] + s[1..] == s[1..];
      } else {
        SumOfRest(s[1..], i - 1);
        assert (s[..i] + s[i + 1..])[1..] == s[1..][..i - 1] + s[1..][i..];
      }
    }

    twostate lemma RestAgrees(c: HTTPContext)
      requires old(FeedsAgree(c)) && c in old(connections) && connections == Without(old(connections), c)
      requires forall d :: d in old(connections) ==> d.stream == old(d.stream) && d.state == old(d.state)
      requires forall s :: s in streams ==> s.feed_opened == (old(s.feed_opened) && !old(Feeds(c, s)))
      ensures FeedsAgree(null)
    {
      forall s | s in streams && !old(Feeds(c, s))
        ensures IsFed(s) == old(IsFed(s))
      {
        FedStays(s);
      }
      if c.state == ReceiveData && c.stream != null {
        assert forall d :: d in connections ==> !Feeds(d, c.stream);
      }
    }

    /** Unlinks a connection, walking the list to its end as the code does. */
    method RemoveFromList(c: HTTPContext)
      modifies this`connections
      ensures connections == Without(old(connections), c)
    {
      var at := 0;
      ghost var before, k := connections, 0;
      while at < |connections|
        invariant 0 <= k <= |before| && at == |Without(before[..k], c)|
        invariant connections == Without(before[..k], c) + before[k..]
        decreases |connections| - at
      {
        WalkStep(before, k, c);
        if connections[at] == c {
          connections := connections[..at] + connections[at + 1..];
        } else {
          at := at + 1;
        }
        k := k + 1;
      }
      assert before[..k] == before;
    }

    /** No connection sends its packets through c any more. */
    method ForgetCarrier(c: HTTPContext)
      modifies connections
      ensures forall d :: d in connections ==> d.rtsp_c == (if old(d.rtsp_c) == c then null else old(d.rtsp_c))
      ensures forall d :: d in connections ==>
        d.state == old(d.state) && d.stream == old(d.stream) && d.post == old(d.post)
    {
      var i := 0;
      while i < |connections|
        invariant 0 <= i <= |connections|
        invariant forall k :: 0 <= k < i ==>
          connections[k].rtsp_c == (if old(connections[k].rtsp_c) == c then null else old(connections[k].rtsp_c))
        invariant forall d :: d in connections ==> d.rtsp_c == old(d.rtsp_c) || (old(d.rtsp_c) == c && d.rtsp_c == null)
        invariant forall d :: d in connections ==>
          d.state == old(d.state) && d.stream == old(d.stream) && d.post == old(d.post)
      {
        if connections[i].rtsp_c == c {
          connections[i].rtsp_c := null;
        }
        i := i + 1;
      }
    }

    /** The failure path of http_receive_data, and the closing that the main loop answers it with: whoever waits for
        the feed is sent to its trailer. */
    method HttpReceiveDataFails(c: HTTPContext)
      requires Valid() && c in connections && c.state == ReceiveData
      modifies this`connections, this`nb_connections, this`current_bandwidth, connections, streams
      ensures Valid() && c !in connections && old(c.stream) != null && !old(c.stream).feed_opened
      ensures connections == Without(old(connections), c)
      ensures forall d :: d in connections ==>
        (d.state != old(d.state) <==>
         old(d.state == WaitFeed && d.stream != null && d.stream.feed == c.stream.feed))
      ensures forall d :: d in connections && d.state != old(d.state) ==> d.state == SendDataTrailer
    {
      StopReceiving(c);
      CloseConnection(c);
    }

    method StopReceiving(c: HTTPContext)
      requires Valid() && c in connections && c.state == ReceiveData
      modifies connections`state, streams
      ensures ValidBut(c) && c.state == ReceiveData && c.stream != null && !c.stream.feed_opened
      ensures forall d :: d in connections ==> d.state == Woken(d, c)
    {
      assert forall d :: d in connections ==> ConnectionOk(d);
      c.stream.feed_opened := false;
      WakeWaiters(c);
      StillAgreesBut(c);
      WokenOk(c);
    }

    twostate lemma WokenOk(c: HTTPContext)
      requires old(Valid()) && connections == old(connections)
      requires forall d :: d in connections ==>
        d.state == Woken(d, c) && d.stream == old(d.stream) && d.post == old(d.post) && d.rtsp_c == old(d.rtsp_c)
      ensures Charges() == old(Charges()) && forall d {:trigger ConnectionOk(d)} :: d in connections ==> ConnectionOk(d)
    {
      assert forall d :: d in connections ==> old(ConnectionOk(d));
    }

    twostate lemma StillAgreesBut(c: HTTPContext)
      requires old(FeedsAgree(null)) && connections == old(connections) && c in connections && c.state == ReceiveData
      requires forall d :: d in connections ==>
        d.stream == old(d.stream) && (d.state == ReceiveData <==> old(d.state) == ReceiveData)
      requires forall s :: s in streams && s != c.stream ==> s.feed_opened == old(s.feed_opened)
      ensures FeedsAgree(c)
    {
      forall s | s in streams && s != c.stream
        ensures IsFed(s) == old(IsFed(s))
      {
        FedStays(s);
      }
    }

    /** The state after those waiting for what c was feeding were woken. */
    twostate function Woken(d: HTTPContext, c: HTTPContext): ConnState {
      if old(d.state == WaitFeed && d.stream != null && c.stream != null && d.stream.feed == c.stream.feed) then
        SendDataTrailer
      else old(d.state)
    }

    method WakeWaiters(c: HTTPContext)
      requires c.stream != null && c.state == ReceiveData
      requires forall d :: d in connections && d.state == WaitFeed ==> d.stream != null
      modifies connections`state
      ensures c.state == ReceiveData && forall d :: d in connections ==> d.state == Woken(d, c)
    {
      var i := 0;
      while i < |connections|
        invariant 0 <= i <= |connections| && c.state == ReceiveData
        invariant forall k :: 0 <= k < i ==> connections[k].state == Woken(connections[k], c)
        invariant forall d :: d in connections ==> d.state == old(d.state) || d.state == Woken(d, c)
      {
        var d := connections[i];
        if d.state == WaitFeed && d.stream.feed == c.stream.feed {
          d.state := SendDataTrailer;
        }
        i := i + 1;
      }
    }

    /** A live POST-free connection is charged at most what is being served: the counter never goes below zero. */
    lemma BandwidthCovers(c: HTTPContext)
      requires Valid() && c in connections
      ensures 0 <= Charge(c) <= current_bandwidth
    {
      var i :| 0 <= i < |connections| && connections[i] == c;
      SumAtLeastOne(Charges(), i);
    }

    lemma NothingOpenWhenEmpty()
      requires Valid() && connections == []
      ensures nb_connections == 0 && current_bandwidth == 0 && forall s :: s in streams ==> !s.feed_opened
    {
      assert forall s :: s in streams ==> !IsFed(s);
    }

    // The main loop

    predicate MayMove(m: Move)
      reads this, connections
    {
      && m.at < |connections|
      && connections[m.at].state !in {WaitRequest, ReceiveData} && m.next !in {WaitRequest, ReceiveData}
      && IsRtsp(m.next) == IsRtsp(connections[m.at].state)
      && (m.next == WaitFeed ==> connections[m.at].stream != null)
    }

    /** Can handling c come to this? The configured streams given to RTP are live. */
    predicate Possible(c: HTTPContext, e: Event)
      reads this, connections, c
    {
      match e
      case Nothing => true
      case Setup(s, _) => c.state == RtspWaitRequest && s in streams && s.kind == Live
      case SetupMore(j) => c.state == RtspWaitRequest && j < |connections| && connections[j].rtp
      case Teardown(j) => c.state == RtspWaitRequest && j < |connections| && connections[j].rtp
      case Parse(req) => c.state == WaitRequest && (req.stream != null ==> req.stream in streams)
      case ReceiveFails => c.state == ReceiveData
      case Fails => true
    }

    method MoveOn(moves: seq<Move>)
      requires Valid()
      modifies connections
      ensures Valid() && unchanged(this)
      ensures moves == [] ==> forall d :: d in connections ==> d.state == old(d.state)
    {
      for k := 0 to |moves|
        invariant Valid() && unchanged(this)
        invariant k == 0 ==> forall d :: d in connections ==> d.state == old(d.state)
      {
        if MayMove(moves[k]) {
          AdvanceState(connections[moves[k].at], moves[k].next);
        }
      }
    }

    /** The connection that handling c closes: a TEARDOWN closes the session, anything else at most c itself. */
    function Closes(c: HTTPContext, e: Event): HTTPContext?
      requires Possible(c, e)
      reads this, connections, c
    {
      match e
      case Teardown(j) => connections[j]
      case Parse(req) => if req.verb == OtherVerb || !req.versionOk then c else null
      case ReceiveFails => c
      case Fails => c
      case _ => null
    }

    /** handle_connection, and the closing that answers its failure. */
    method HandleConnection(c: HTTPContext, e: Event)
      requires Valid() && c in connections && Possible(c, e)
      modifies this`connections, this`nb_connections, this`current_bandwidth, connections, streams
      ensures Valid() && Changes(old(connections), old(Closes(c, e)), connections)
      ensures old(Closes(c, e)) == null && connections != old(connections) ==> fresh(connections[0])
    {
      match e {
        case Nothing =>
        case Setup(s, tcp) => SetUp(c, s, tcp);
        case SetupMore(j) => RtpNewAvStream(connections[j], c);
        case Teardown(j) =>
          CloseConnection(connections[j]);
          assert old(connections[j]) in old(connections);
        case Parse(req) => Answer(c, req);
        case ReceiveFails => HttpReceiveDataFails(c);
        case Fails => CloseConnection(c);
      }
    }

    method Answer(c: HTTPContext, req: Request)
      requires Valid() && c in connections && c.state == WaitRequest
      requires req.stream != null ==> req.stream in streams
      modifies this`connections, this`nb_connections, this`current_bandwidth, connections, streams
      ensures Valid()
      ensures connections
           == if req.verb == OtherVerb || !req.versionOk then Without(old(connections), c) else old(connections)
    {
      var ok := HttpParseRequest(c, req);
      if !ok {
        CloseConnection(c);
      }
    }

    /** rtsp_cmd_setup: a new session, whose packets go through c if it asks for TCP. */
    method SetUp(c: HTTPContext, stream: FFStream, tcp: bool)
      requires Valid() && c in connections && stream in streams && stream.kind == Live
      modifies this`connections, this`nb_connections, this`current_bandwidth
      ensures Valid()
      ensures
        || connections == old(connections)
        || (|connections| > 0 && fresh(connections[0]) && connections[1..] == old(connections))
    {
      var session := RtpNewConnection(stream);
      if session != null && tcp {
        RtpNewAvStream(session, c);
      }
    }

    /** One visit of the loop. The state moves come first, then what handling c comes to, if it can. */
    method VisitOne(c: HTTPContext, a: Action) returns (ghost v: Visit)
      requires Valid() && c in connections
      modifies this`connections, this`nb_connections, this`current_bandwidth, connections, streams
      ensures Valid() && Changes(old(connections), v.gone, connections)
      ensures forall k :: 0 <= k < |connections| ==> connections[k] in old(connections) || fresh(connections[k])
      ensures v.c == c && v.list == old(connections) && Regular(v)
      ensures a.moves == [] && old(Possible(c, a.event)) ==>
        v.gone == old(Closes(c, a.event)) && v.torn == a.event.Teardown?
    {
      v := Visit(c, connections, Successor(connections, c), null, false);
      MoveOn(a.moves);
      if Possible(c, a.event) {
        v := v.(gone := Closes(c, a.event), torn := a.event.Teardown?);
        HandleConnection(c, a.event);
      }
    }

    /** One pass over the list, as the server makes it after each poll: the successor is saved before a connection is
        handled.  Where the pass would go on to a connection that is no longer in the list, and so freed, it is left. */
    method Pass(actions: seq<Action>) returns (ok: bool, ghost visits: seq<Visit>)
      requires Valid()
      modifies this`connections, this`nb_connections, this`current_bandwidth, connections, streams
      ensures Valid()
      ensures forall k :: 0 <= k < |connections| ==> connections[k] in old(connections) || fresh(connections[k])
      ensures Chained(visits, old(connections)) && (visits == [] ==> old(connections) == [])
      ensures ok <==> NoneHitsSaved(visits)
      ensures ok <==> AllListed(visits)
      ensures ok && visits != [] ==> visits[|visits| - 1].saved == null
    {
      ok, visits := true, [];
      var c: HTTPContext? := if connections == [] then null else connections[0];
      var k := 0;
      while c != null
        invariant Valid()
        invariant forall i :: 0 <= i < |connections| ==> connections[i] in old(connections) || fresh(connections[i])
        invariant SoFar(visits, old(connections), connections, c) && (c != null ==> c in connections)
        decreases if c != null && c in connections then Ahead(connections, c) else 0
      {
        ghost var v;
        c, v := VisitNext(c, if k < |actions| then actions[k] else Action([], Nothing), visits, old(connections));
        visits := visits + [v];
        k := k + 1;
        if c != null && c !in connections {
          visits := visits + [Visit(c, connections, null, null, false)];
          return false, visits;
        }
      }
    }

    /** One turn of the pass: the successor is saved, c is handled, and the successor is next. */
    method VisitNext(c: HTTPContext, a: Action, ghost visits: seq<Visit>, ghost start: seq<HTTPContext>)
      returns (c_next: HTTPContext?, ghost v: Visit)
      requires Valid() && c in connections && SoFar(visits, start, connections, c)
      modifies this`connections, this`nb_connections, this`current_bandwidth, connections, streams
      ensures Valid()
      ensures forall k :: 0 <= k < |connections| ==> connections[k] in old(connections) || fresh(connections[k])
      ensures c_next == null || c_next in connections ==>
        SoFar(visits + [v], start, connections, c_next) && v.saved == c_next
      ensures c_next != null && c_next in connections ==> Ahead(connections, c_next) < old(Ahead(connections, c))
      ensures c_next != null && c_next !in connections ==>
        Broken(visits + [v] + [Visit(c_next, connections, null, null, false)], start)
    {
      c_next := Successor(connections, c);
      v := VisitOne(c, a);
      VisitAdded(visits, start, v, connections);
      if c_next != null {
        GoesOn(v, connections);
        if c_next !in connections {
          PassBroken(visits, start, v, connections, c_next);
        }
      }
    }

    /** Rounds of the main loop. In every state reached by any rounds the counters and marks agree with the list; and
        all the connections the passes visit are in it, if and only if no visit tears down the successor saved. */
    method Run(rounds: seq<Round>) returns (ok: bool, ghost passes: seq<seq<Visit>>)
      requires Valid()
      modifies this`connections, this`nb_connections, this`current_bandwidth, connections, streams
      ensures Valid()
      ensures ok <==> forall k :: 0 <= k < |passes| ==> NoneHitsSaved(passes[k])
      ensures ok <==> forall k :: 0 <= k < |passes| ==> AllListed(passes[k])
      ensures ok ==> |passes| == |rounds|
    {
      ok, passes := true, [];
      var k := 0;
      while ok && k < |rounds|
        invariant 0 <= k <= |rounds| && (ok ==> |passes| == k)
        invariant Valid()
        invariant forall i :: 0 <= i < |connections| ==> connections[i] in old(connections) || fresh(connections[i])
        invariant ok <==> forall i :: 0 <= i < |passes| ==> NoneHitsSaved(passes[i])
        invariant ok <==> forall i :: 0 <= i < |passes| ==> AllListed(passes[i])
        decreases |rounds| - k, ok
      {
        ghost var visits;
        ok, visits := Pass(rounds[k].actions);
        passes := passes + [visits];
        assert passes[|passes| - 1] == visits;
        if ok {
          AcceptAll(rounds[k].accepts);
          k := k + 1;
        }
      }
    }

    method AcceptAll(accepts: seq<bool>)
      requires Valid()
      modifies this`connections, this`nb_connections, this`current_bandwidth
      ensures Valid()
      ensures forall k :: 0 <= k < |connections| ==> connections[k] in old(connections) || fresh(connections[k])
    {
      for i := 0 to |accepts|
        invariant Valid()
        invariant forall k :: 0 <= k < |connections| ==> connections[k] in old(connections) || fresh(connections[k])
      {
        var _ := NewConnection(accepts[i]);
      }
    }
  }

  /** A client connects and sets up a session for a live stream, and another client connects. */
  method ThreeConnections() returns (server: Server, b: HTTPContext, ghost r: HTTPContext, ghost a: HTTPContext)
    ensures fresh(server) && fresh(b) && server.Valid() && server.connections == [b, r, a]
    ensures r.rtp && b.state == RtspWaitRequest
    ensures fresh(r) && fresh(a) && forall s :: s in server.streams ==> fresh(s)
  {
    var live := new FFStream(Live, 100, false, false, null);
    server := new Server(10, 1000, {live});
    a := server.NewConnection(true);
    r := server.RtpNewConnection(live);
    b := server.NewConnection(true);
  }

  /** It does happen: a client sets up a session, another one connects, and its TEARDOWN of that session is handled
      first in the next pass.  The pass then goes on to the session, which has been freed. */
  method TeardownOfSuccessor() returns (server: Server, ghost v: Visit)
    ensures server.Valid() && v.list != [] && v.c == v.list[0] && HitsSaved(v) && v.saved !in server.connections
  {
    ghost var r, a;
    var b;
    server, b, r, a := ThreeConnections();
    v := server.VisitOne(b, Action([], Teardown(1)));
  }
}
