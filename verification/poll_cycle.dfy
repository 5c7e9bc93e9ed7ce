/**
 * The long-poll cycle of a datastore client (`run`), as a fold over what
 * the outside world does while it runs: the upstream answers the pending
 * GET, the owner asks the client to stop, or the owner sends an update.
 * JSON payloads and messages are values of the opaque type `J`.
 */
module PollCycle {
  import opened Decimal
  import opened DatastoreClient

  /** The status of a "not modified" reply. */
  const NotModified: int := 304

  /** The change token the cycle starts from, meaning "no state seen yet". */
  const InitialEtag: int := -1

  /** A reply to a poll: its `ETag` header, already read as an integer, its status and its decoded body. */
  datatype Response<J> = Response(etag: int, status: int, body: J)

  /** A conditional GET: the address and the `If-None-Match` header it carries. */
  datatype Get = Get(url: string, ifNoneMatch: string)

  datatype Event<J> =
    | StopCalled                        // the owner calls `stop`
    | Replied(response: Response<J>)    // the upstream answers the GET in flight
    | Sent(message: J, status: int)     // the owner calls `send`; the PATCH gets `status`

  /**
   * The state of one `run`: the client with its flag, the local change
   * token, every GET issued, every payload handed to the sink, every PATCH
   * issued, and the outcome of every evaluation of the loop condition.
   */
  datatype Session<J> = Session(
    client: Client,
    etag: int,
    gets: seq<Get>,
    sunk: seq<J>,
    patches: seq<Patch<J>>,
    checks: seq<bool>)
  {
    /** The last loop-condition check passed, so a GET is in flight. */
    predicate Polling() {
      |checks| > 0 && checks[|checks| - 1]
    }
  }

  /** The top of the loop: when the flag holds, issue the next GET with the current token. */
  function LoopCheck<J>(s: Session<J>): Session<J> {
    if s.client.enabled then
      s.(checks := s.checks + [true], gets := s.gets + [Get(DatastoreUrl(s.client), IntToString(s.etag))])
    else
      s.(checks := s.checks + [false])
  }

  /** Entering `run`: the flag is raised and the token reset before the first check. */
  function Start<J>(c: Client): (s: Session<J>) {
    LoopCheck(Session(c.(enabled := true), InitialEtag, [], [], [], []))
  }

  /** Reading the reply to the GET in flight, then checking the flag again. */
  function Receive<J>(s: Session<J>, r: Response<J>): Session<J> {
    LoopCheck(s.(etag := r.etag, sunk := if r.status == NotModified then s.sunk else s.sunk + [r.body]))
  }

  function Step<J>(s: Session<J>, e: Event<J>): Session<J> {
    match e
    case StopCalled => s.(client := Stop(s.client))
    case Sent(m, status) => s.(patches := s.patches + [Send(s.client, m, status).patch])
    // once the loop has exited no GET is pending, so a reply is never read
    case Replied(r) => if s.Polling() then Receive(s, r) else s
  }

  function Fold<J>(s: Session<J>, events: seq<Event<J>>): Session<J>
    decreases |events|
  {
    if events == [] then s else Fold(Step(s, events[0]), events[1..])
  }

  /** `run` on client `c` while `events` happen, in that order. */
  function Run<J>(c: Client, events: seq<Event<J>>): Session<J> {
    Fold(Start(c), events)
  }

  // ---------------------------------------------------------------------
  // Reference definitions, stated over the responses and the events alone.

  /** The payloads the sink must see: the body of every reply that is not a 304, in order. */
  function Emitted<J>(rs: seq<Response<J>>): seq<J>
    decreases |rs|
  {
    if rs == [] then []
    else
      var last := rs[|rs| - 1];
      Emitted(rs[..|rs| - 1]) + (if last.status == NotModified then [] else [last.body])
  }

  /** The change token after reading `rs`: the last reply's ETag, or the initial one. */
  function LastEtag<J>(rs: seq<Response<J>>): int {
    if rs == [] then InitialEtag else rs[|rs| - 1].etag
  }

  /** The `If-None-Match` value of the GET issued after reading the first `k` replies. */
  function Token<J>(rs: seq<Response<J>>, k: nat): string
    requires k <= |rs|
  {
    IntToString(LastEtag(rs[..k]))
  }

  function Replies<J>(events: seq<Event<J>>): seq<Response<J>>
    decreases |events|
  {
    if events == [] then []
    else (if events[0].Replied? then [events[0].response] else []) + Replies(events[1..])
  }

  function Take1<T>(xs: seq<T>): seq<T> {
    if xs == [] then [] else [xs[0]]
  }

  /**
   * The replies the cycle reads: every reply before the first stop, then
   * only the one that answers the GET already in flight.
   */
  function Read<J>(events: seq<Event<J>>): seq<Response<J>>
    decreases |events|
  {
    if events == [] then []
    else match events[0]
      case StopCalled => Take1(Replies(events[1..]))
      case Sent(_, _) => Read(events[1..])
      case Replied(r) => [r] + Read(events[1..])
  }

  /** Some reply arrives after the first stop, so the loop has exited. */
  predicate StopAnswered<J>(events: seq<Event<J>>)
    decreases |events|
  {
    if events == [] then false
    else if events[0].StopCalled? then Replies(events[1..]) != []
    else StopAnswered(events[1..])
  }

  predicate HasStop<J>(events: seq<Event<J>>) {
    exists i :: 0 <= i < |events| && events[i].StopCalled?
  }

  /** The PATCH requests `events` ask for, in order. */
  function Patches<J>(url: string, events: seq<Event<J>>): seq<Patch<J>>
    decreases |events|
  {
    if events == [] then []
    else (if events[0].Sent? then [Patch(url, events[0].message)] else []) + Patches(url, events[1..])
  }

  /** `n` loop checks that all found the flag up. */
  function Trues(n: nat): seq<bool>
    decreases n
  {
    if n == 0 then [] else Trues(n - 1) + [true]
  }

  /**
   * The GETs whose replies are `rs`: the first carries the initial token,
   * each later one the ETag of the reply before it.
   */
  function Issued<J>(url: string, rs: seq<Response<J>>): seq<Get>
    decreases |rs|
  {
    if rs == [] then []
    else
      var front := rs[..|rs| - 1];
      Issued(url, front) + [Get(url, IntToString(LastEtag(front)))]
  }

  /**
   * `s` is the state of a `run` of `c` that has read exactly `rs`: every
   * field but `patches` and the flag is determined by `rs` and whether a
   * GET is in flight.
   */
  ghost predicate Tracks<J>(s: Session<J>, c: Client, rs: seq<Response<J>>) {
    && s.client == c.(enabled := s.client.enabled)
    && s.etag == LastEtag(rs)
    && s.sunk == Emitted(rs)
    && s.gets == Issued(DatastoreUrl(c), rs) + (if s.Polling() then [Get(DatastoreUrl(c), IntToString(LastEtag(rs)))] else [])
    && s.checks == Trues(|s.gets|) + (if s.Polling() then [] else [false])
    && (s.Polling() || (!s.client.enabled && rs != []))
  }

  // ---------------------------------------------------------------------
  // The fold follows the reference definitions.

  lemma StartTracks<J>(c: Client)
    ensures var s := Start<J>(c);
      && Tracks(s, c, []) && s.Polling() && s.client.enabled && s.patches == []
  {
    var s := Start<J>(c);
    assert s.checks == Trues(1);
  }

  lemma SnocFront<T>(xs: seq<T>, x: T)
    ensures (xs + [x])[..|xs|] == xs
    ensures (xs + [x])[|xs|] == x
  {
  }

  /** Reading one more reply extends the reference sequences by that reply's contribution. */
  lemma ReadOneMore<J>(url: string, rs: seq<Response<J>>, r: Response<J>)
    ensures LastEtag(rs + [r]) == r.etag
    ensures Emitted(rs + [r]) == Emitted(rs) + (if r.status == NotModified then [] else [r.body])
    ensures Issued(url, rs + [r]) == Issued(url, rs) + [Get(url, IntToString(LastEtag(rs)))]
  {
    SnocFront(rs, r);
  }

  lemma ReceiveTracks<J>(s: Session<J>, c: Client, rs: seq<Response<J>>, r: Response<J>)
    requires Tracks(s, c, rs) && s.Polling()
    ensures var t := Receive(s, r);
      && Tracks(t, c, rs + [r])
      && t.Polling() == s.client.enabled
      && t.client == s.client
      && t.patches == s.patches
  {
    var url := DatastoreUrl(c);
    ReadOneMore(url, rs, r);
    var mid := s.(etag := r.etag, sunk := if r.status == NotModified then s.sunk else s.sunk + [r.body]);
    assert Receive(s, r) == LoopCheck(mid);
    assert mid.gets == Issued(url, rs + [r]) by {
      assert DatastoreUrl(s.client) == url;
    }
    if s.client.enabled {
      ContinueTracks(mid, c, rs + [r]);
    } else {
      ExitTracks(mid, c, rs + [r]);
    }
  }

  /** The check after a reply finds the flag up: the next GET carries the new token. */
  lemma ContinueTracks<J>(mid: Session<J>, c: Client, rs: seq<Response<J>>)
    requires mid.client == c.(enabled := true)
    requires mid.etag == LastEtag(rs) && mid.sunk == Emitted(rs)
    requires mid.gets == Issued(DatastoreUrl(c), rs) && mid.checks == Trues(|mid.gets|)
    ensures Tracks(LoopCheck(mid), c, rs) && LoopCheck(mid).Polling()
  {
    var t := LoopCheck(mid);
    assert DatastoreUrl(mid.client) == DatastoreUrl(c);
    assert t.checks == Trues(|t.gets|);
  }

  /** The check after a reply finds the flag down: the loop exits. */
  lemma ExitTracks<J>(mid: Session<J>, c: Client, rs: seq<Response<J>>)
    requires mid.client == c.(enabled := false) && rs != []
    requires mid.etag == LastEtag(rs) && mid.sunk == Emitted(rs)
    requires mid.gets == Issued(DatastoreUrl(c), rs) && mid.checks == Trues(|mid.gets|)
    ensures Tracks(LoopCheck(mid), c, rs) && !LoopCheck(mid).Polling()
  {
  }

  lemma TracksTransfer<J>(s: Session<J>, c: Client, a: seq<Response<J>>, b: seq<Response<J>>)
    requires Tracks(s, c, a) && a == b
    ensures Tracks(s, c, b)
  {
  }

  /** Position k of `Issued` carries the token of the first k replies. */
  lemma {:induction false} IssuedTokens<J>(url: string, rs: seq<Response<J>>)
    ensures |Issued(url, rs)| == |rs|
    ensures forall k :: 0 <= k < |rs| ==> Issued(url, rs)[k] == Get(url, Token(rs, k))
    decreases |rs|
  {
    if rs != [] {
      var front := rs[..|rs| - 1];
      IssuedTokens(url, front);
      forall k | 0 <= k < |rs|
        ensures Issued(url, rs)[k] == Get(url, Token(rs, k))
      {
        if k < |front| {
          assert rs[..k] == front[..k];
        } else {
          assert rs[..k] == front;
        }
      }
    }
  }

  lemma HasStopCons<J>(events: seq<Event<J>>)
    requires events != []
    ensures HasStop(events) <==> events[0].StopCalled? || HasStop(events[1..])
  {
    if HasStop(events) && !events[0].StopCalled? {
      var i :| 0 <= i < |events| && events[i].StopCalled?;
      assert events[1..][i - 1] == events[i];
    }
    if HasStop(events[1..]) {
      var i :| 0 <= i < |events[1..]| && events[1..][i].StopCalled?;
      assert events[i + 1] == events[1..][i];
    }
  }

  /** Only a stop touches the client, and only its flag. */
  lemma {:induction false} FoldClient<J>(s: Session<J>, events: seq<Event<J>>)
    ensures Fold(s, events).client == s.client.(enabled := s.client.enabled && !HasStop(events))
    decreases |events|
  {
    if events == [] {
      assert !HasStop(events);
    } else {
      HasStopCons(events);
      FoldClient(Step(s, events[0]), events[1..]);
    }
  }

  lemma StepPatches<J>(s: Session<J>, e: Event<J>)
    ensures Step(s, e).patches == s.patches + (if e.Sent? then [Patch(DatastoreUrl(s.client), e.message)] else [])
    ensures Step(s, e).client == s.client.(enabled := s.client.enabled && !e.StopCalled?)
  {
  }

  /** Every send issues its PATCH, whatever the state of the loop. */
  lemma {:induction false} FoldPatches<J>(s: Session<J>, events: seq<Event<J>>)
    ensures Fold(s, events).patches == s.patches + Patches(DatastoreUrl(s.client), events)
    decreases |events|
  {
    if events != [] {
      var e, rest := events[0], events[1..];
      var s' := Step(s, e);
      assert Fold(s, events) == Fold(s', rest);
      StepPatches(s, e);
      assert DatastoreUrl(s'.client) == DatastoreUrl(s.client);
      FoldPatches(s', rest);
    }
  }

  /** A stop or a send leaves the replies read and the GETs issued as they were. */
  lemma StepKeepsTracks<J>(s: Session<J>, c: Client, rs: seq<Response<J>>, e: Event<J>)
    requires Tracks(s, c, rs) && !e.Replied?
    ensures var t := Step(s, e);
      && Tracks(t, c, rs)
      && t.Polling() == s.Polling()
      && t.gets == s.gets
      && t.client.enabled == (s.client.enabled && !e.StopCalled?)
  {
  }

  /** Once the loop has exited, no reply is read and no GET issued. */
  lemma {:induction false} FoldFinished<J>(s: Session<J>, c: Client, rs: seq<Response<J>>, events: seq<Event<J>>)
    requires Tracks(s, c, rs) && !s.Polling()
    ensures var t := Fold(s, events);
      Tracks(t, c, rs) && !t.Polling() && t.gets == s.gets
    decreases |events|
  {
    if events != [] {
      var e, rest := events[0], events[1..];
      if !e.Replied? {
        StepKeepsTracks(s, c, rs, e);
      }
      FoldFinished(Step(s, e), c, rs, rest);
    }
  }

  /** After a stop with a GET in flight: its reply is read, and then the loop exits. */
  lemma {:induction false} FoldDraining<J>(s: Session<J>, c: Client, rs: seq<Response<J>>, events: seq<Event<J>>)
    requires Tracks(s, c, rs) && s.Polling() && !s.client.enabled
    ensures var t := Fold(s, events);
      && Tracks(t, c, rs + Take1(Replies(events)))
      && t.Polling() == (Replies(events) == [])
      && t.gets == s.gets
    decreases |events|
  {
    if events == [] {
      assert rs + [] == rs;
    } else {
      var e, rest := events[0], events[1..];
      var s' := Step(s, e);
      if e.Replied? {
        ReceiveTracks(s, c, rs, e.response);
        FoldFinished(s', c, rs + [e.response], rest);
        assert Take1(Replies(events)) == [e.response];
      } else {
        StepKeepsTracks(s, c, rs, e);
        FoldDraining(s', c, rs, rest);
        assert Replies(events) == Replies(rest);
      }
    }
  }

  /** While the flag holds every reply is read; the first stop hands over to `FoldDraining`. */
  lemma {:induction false} FoldRunning<J>(s: Session<J>, c: Client, rs: seq<Response<J>>, events: seq<Event<J>>)
    requires Tracks(s, c, rs) && s.Polling() && s.client.enabled
    ensures var t := Fold(s, events);
      Tracks(t, c, rs + Read(events)) && t.Polling() == !StopAnswered(events)
    decreases |events|, 1
  {
    if events == [] {
      assert rs + [] == rs;
    } else if events[0].Replied? {
      RunningReply(s, c, rs, events);
    } else {
      RunningOther(s, c, rs, events);
    }
  }

  lemma {:induction false} RunningReply<J>(s: Session<J>, c: Client, rs: seq<Response<J>>, events: seq<Event<J>>)
    requires Tracks(s, c, rs) && s.Polling() && s.client.enabled
    requires events != [] && events[0].Replied?
    ensures var t := Fold(s, events);
      Tracks(t, c, rs + Read(events)) && t.Polling() == !StopAnswered(events)
    decreases |events|, 0
  {
    var r, rest := events[0].response, events[1..];
    var s' := Receive(s, r);
    var t := Fold(s', rest);
    assert Fold(s, events) == t;
    assert rs + Read(events) == (rs + [r]) + Read(rest) by {
      assert Read(events) == [r] + Read(rest);
    }
    assert StopAnswered(events) == StopAnswered(rest);
    assert Tracks(s', c, rs + [r]) && s'.Polling() && s'.client.enabled by {
      ReceiveTracks(s, c, rs, r);
    }
    FoldRunning(s', c, rs + [r], rest);
    TracksTransfer(t, c, (rs + [r]) + Read(rest), rs + Read(events));
  }

  lemma {:induction false} RunningOther<J>(s: Session<J>, c: Client, rs: seq<Response<J>>, events: seq<Event<J>>)
    requires Tracks(s, c, rs) && s.Polling() && s.client.enabled
    requires events != [] && !events[0].Replied?
    ensures var t := Fold(s, events);
      Tracks(t, c, rs + Read(events)) && t.Polling() == !StopAnswered(events)
    decreases |events|, 0
  {
    var e, rest := events[0], events[1..];
    var s' := Step(s, e);
    assert Fold(s, events) == Fold(s', rest);
    StepKeepsTracks(s, c, rs, e);
    if e.Sent? {
      FoldRunning(s', c, rs, rest);
      assert Read(events) == Read(rest);
      assert StopAnswered(events) == StopAnswered(rest);
    } else {
      FoldDraining(s', c, rs, rest);
      assert Read(events) == Take1(Replies(rest));
      assert StopAnswered(events) == (Replies(rest) != []);
    }
  }

  lemma {:induction false} FoldAppend<J>(s: Session<J>, a: seq<Event<J>>, b: seq<Event<J>>)
    ensures Fold(s, a + b) == Fold(Fold(s, a), b)
    decreases |a|
  {
    if a != [] {
      assert (a + b)[0] == a[0] && (a + b)[1..] == a[1..] + b;
      FoldAppend(Step(s, a[0]), a[1..], b);
    } else {
      assert a + b == b;
    }
  }

  /** A whole run tracks exactly the replies `Read` selects. */
  lemma RunTracks<J>(c: Client, events: seq<Event<J>>)
    ensures var s := Run(c, events);
      && Tracks(s, c, Read(events))
      && s.Polling() == !StopAnswered(events)
      && s.client == c.(enabled := !HasStop(events))
      && s.patches == Patches(DatastoreUrl(c), events)
  {
    StartTracks<J>(c);
    FoldRunning(Start<J>(c), c, [], events);
    assert [] + Read(events) == Read(events);
    FoldClient(Start<J>(c), events);
    FoldPatches(Start<J>(c), events);
    assert DatastoreUrl(Start<J>(c).client) == DatastoreUrl(c);
  }

  // ---------------------------------------------------------------------
  // Properties of `run`.

  /**
   * The sink receives the body of every reply read that is not a 304, in
   * order, and nothing else; the token ends as the last reply's ETag.
   */
  lemma RunEmits<J>(c: Client, events: seq<Event<J>>)
    ensures Run(c, events).sunk == Emitted(Read(events))
    ensures Run(c, events).etag == LastEtag(Read(events))
  {
    RunTracks(c, events);
  }

  /** The sentinel travels as the text "-1". */
  lemma SentinelText()
    ensures IntToString(InitialEtag) == "-1"
  {
    assert NatToString(1) == "1";
  }

  /**
   * The first GET carries "-1", the one after reply k carries that reply's
   * ETag; all target the client's resource; one GET more than replies read
   * while the loop is still running.
   */
  lemma RunTokens<J>(c: Client, events: seq<Event<J>>)
    ensures var s := Run(c, events); var rs := Read(events);
      && |s.gets| == |rs| + (if StopAnswered(events) then 0 else 1)
      && |s.gets| > 0
      && s.gets[0] == Get(DatastoreUrl(c), "-1")
      && (forall k :: 0 <= k < |rs| && k + 1 < |s.gets| ==> s.gets[k + 1].ifNoneMatch == IntToString(rs[k].etag))
      && (forall k :: 0 <= k < |s.gets| ==> s.gets[k].url == DatastoreUrl(c))
  {
    var s, rs := Run(c, events), Read(events);
    var url := DatastoreUrl(c);
    assert && s.gets == Issued(url, rs) + (if s.Polling() then [Get(url, IntToString(LastEtag(rs)))] else [])
           && s.Polling() == !StopAnswered(events)
           && (s.Polling() || rs != []) by {
      RunTracks(c, events);
    }
    IssuedTokens(url, rs);
    assert forall k :: 0 <= k < |s.gets| ==> s.gets[k] == Get(url, Token(rs, k)) by {
      forall k | 0 <= k < |s.gets|
        ensures s.gets[k] == Get(url, Token(rs, k))
      {
        if k == |rs| {
          assert rs[..k] == rs;
        }
      }
    }
    assert s.gets[0].ifNoneMatch == "-1" by {
      SentinelText();
      assert rs[..0] == [];
    }
    forall k | 0 <= k < |rs| && k + 1 < |s.gets|
      ensures s.gets[k + 1].ifNoneMatch == IntToString(rs[k].etag)
    {
      assert rs[..k + 1][k] == rs[k];
    }
  }

  /**
   * Every loop-condition check that found the flag raised issued one GET;
   * the only failing check is the last one, made when the loop exits.
   */
  lemma RunChecks<J>(c: Client, events: seq<Event<J>>)
    ensures var s := Run(c, events);
      s.checks == Trues(|s.gets|) + (if StopAnswered(events) then [false] else [])
  {
    RunTracks(c, events);
  }

  /** The client keeps its address and identity; its flag is down exactly when a stop occurred. */
  lemma RunClient<J>(c: Client, events: seq<Event<J>>)
    ensures Run(c, events).client == c.(enabled := !HasStop(events))
  {
    RunTracks(c, events);
  }

  /** Every send issues one PATCH of the polled resource, in order, whether the loop runs or not. */
  lemma RunPatches<J>(c: Client, events: seq<Event<J>>)
    ensures Run(c, events).patches == Patches(DatastoreUrl(c), events)
  {
    RunTracks(c, events);
  }

  /** `run` raises the flag itself, so a stop issued before it does not prevent polling. */
  lemma StopBeforeRun<J>(c: Client, events: seq<Event<J>>)
    ensures Run(Stop(c), events) == Run(c, events)
    ensures |Run(Stop(c), events).gets| >= 1
  {
    assert Start<J>(Stop(c)) == Start<J>(c);
    RunTracks(c, events);
  }

  /** No GET is issued once `stop` has been called. */
  lemma NoGetAfterStop<J>(c: Client, pre: seq<Event<J>>, post: seq<Event<J>>)
    ensures Run(c, pre + [StopCalled] + post).gets == Run(c, pre).gets
  {
    var u := Run(c, pre);
    var v := Step(u, StopCalled);
    assert Tracks(u, c, Read(pre)) by {
      RunTracks(c, pre);
    }
    assert Run(c, pre + [StopCalled] + post) == Fold(v, post) by {
      FoldAppend(Start<J>(c), pre, [StopCalled] + post);
      assert pre + [StopCalled] + post == pre + ([StopCalled] + post);
      assert Fold(u, [StopCalled] + post) == Fold(v, post);
    }
    assert Tracks(v, c, Read(pre)) && v.gets == u.gets && !v.client.enabled by {
      StepKeepsTracks(u, c, Read(pre), StopCalled);
    }
    if v.Polling() {
      FoldDraining(v, c, Read(pre), post);
    } else {
      FoldFinished(v, c, Read(pre), post);
    }
  }

  /** Before the first stop every reply is read. */
  lemma {:induction false} ReadWithoutStop<J>(events: seq<Event<J>>)
    requires !HasStop(events)
    ensures Read(events) == Replies(events)
    ensures !StopAnswered(events)
    decreases |events|
  {
    if events != [] {
      HasStopCons(events);
      ReadWithoutStop(events[1..]);
    }
  }

  /** After the first stop, only the reply to the GET already in flight is read. */
  lemma {:induction false} ReadAfterStop<J>(pre: seq<Event<J>>, post: seq<Event<J>>)
    requires !HasStop(pre)
    ensures Read(pre + [StopCalled] + post) == Replies(pre) + Take1(Replies(post))
    ensures StopAnswered(pre + [StopCalled] + post) <==> Replies(post) != []
    decreases |pre|
  {
    var events := pre + [StopCalled] + post;
    if pre == [] {
      assert events == [StopCalled] + post;
      assert events[1..] == post;
    } else {
      HasStopCons(pre);
      assert events[0] == pre[0];
      assert events[1..] == pre[1..] + [StopCalled] + post;
      ReadAfterStop(pre[1..], post);
      assert Replies(pre) == (if pre[0].Replied? then [pre[0].response] else []) + Replies(pre[1..]);
    }
  }

  // ---------------------------------------------------------------------
  // Sends are invisible to the poll cycle.

  /** The events with every send removed. */
  function Unsent<J>(events: seq<Event<J>>): (r: seq<Event<J>>)
    ensures forall i :: 0 <= i < |r| ==> !r[i].Sent?
    decreases |events|
  {
    if events == [] then []
    else (if events[0].Sent? then [] else [events[0]]) + Unsent(events[1..])
  }

  lemma {:induction false} UnsentReads<J>(events: seq<Event<J>>)
    ensures Replies(Unsent(events)) == Replies(events)
    ensures Read(Unsent(events)) == Read(events)
    ensures StopAnswered(Unsent(events)) == StopAnswered(events)
    ensures HasStop(Unsent(events)) == HasStop(events)
    decreases |events|
  {
    var u := Unsent(events);
    if events == [] {
      assert !HasStop(u) && !HasStop(events);
    } else {
      var rest := events[1..];
      UnsentReads(rest);
      HasStopCons(events);
      if events[0].Sent? {
        assert u == Unsent(rest);
      } else {
        assert u == [events[0]] + Unsent(rest);
        assert u[0] == events[0] && u[1..] == Unsent(rest);
        HasStopCons(u);
      }
    }
  }

  lemma {:induction false} UnsentNoPatches<J>(url: string, events: seq<Event<J>>)
    ensures Patches(url, Unsent(events)) == []
    decreases |events|
  {
    if events != [] {
      var u := Unsent(events);
      UnsentNoPatches(url, events[1..]);
      if events[0].Sent? {
        assert u == Unsent(events[1..]);
      } else {
        assert u == [events[0]] + Unsent(events[1..]);
        assert u[0] == events[0] && u[1..] == Unsent(events[1..]);
      }
    }
  }

  /** Two states of runs of `c` that read the same replies and agree on phase and flag are the same state, up to their PATCHes. */
  lemma TracksUnique<J>(s1: Session<J>, s2: Session<J>, c: Client, rs: seq<Response<J>>)
    requires Tracks(s1, c, rs) && Tracks(s2, c, rs)
    requires s1.Polling() == s2.Polling() && s1.client.enabled == s2.client.enabled
    ensures s1.(patches := []) == s2.(patches := [])
  {
    assert s1.gets == s2.gets;
  }

  /** Removing every send from a run changes nothing but the PATCHes issued. */
  lemma SendsDoNotDisturb<J>(c: Client, events: seq<Event<J>>)
    ensures Run(c, Unsent(events)).(patches := []) == Run(c, events).(patches := [])
    ensures Run(c, Unsent(events)).patches == []
  {
    UnsentReads(events);
    RunTracks(c, events);
    RunTracks(c, Unsent(events));
    TracksUnique(Run(c, Unsent(events)), Run(c, events), c, Read(events));
    UnsentNoPatches(DatastoreUrl(c), events);
  }

  // ---------------------------------------------------------------------
  // What reaches the sink.

  /** The positions of the replies that are not 304s, in increasing order. */
  function Forwarded<J>(rs: seq<Response<J>>): seq<nat>
    decreases |rs|
  {
    if rs == [] then []
    else Forwarded(rs[..|rs| - 1]) + (if rs[|rs| - 1].status == NotModified then [] else [|rs| - 1])
  }

  lemma {:induction false} ForwardedOrdered<J>(rs: seq<Response<J>>)
    ensures forall j :: 0 <= j < |Forwarded(rs)| ==> Forwarded(rs)[j] < |rs|
    ensures forall j1, j2 :: 0 <= j1 < j2 < |Forwarded(rs)| ==> Forwarded(rs)[j1] < Forwarded(rs)[j2]
    decreases |rs|
  {
    if rs != [] {
      var front := rs[..|rs| - 1];
      ForwardedOrdered(front);
      var f, f0 := Forwarded(rs), Forwarded(front);
      forall j | 0 <= j < |f|
        ensures f[j] < |rs|
      {
        if j < |f0| {
          assert f[j] == f0[j];
        }
      }
      forall j1, j2 | 0 <= j1 < j2 < |f|
        ensures f[j1] < f[j2]
      {
        assert f[j1] == f0[j1] && f0[j1] < |front|;
        if j2 < |f0| {
          assert f[j2] == f0[j2] && f0[j1] < f0[j2];
        } else {
          assert f[j2] == |front|;
        }
      }
    }
  }

  lemma {:induction false} ForwardedBodies<J>(rs: seq<Response<J>>)
    ensures var f := Forwarded(rs);
      && |Emitted(rs)| == |f|
      && forall j :: 0 <= j < |f| ==> f[j] < |rs| && Emitted(rs)[j] == rs[f[j]].body
    decreases |rs|
  {
    if rs != [] {
      var front := rs[..|rs| - 1];
      ForwardedBodies(front);
      var f, f0 := Forwarded(rs), Forwarded(front);
      forall j | 0 <= j < |f0|
        ensures f[j] < |rs| && Emitted(rs)[j] == rs[f[j]].body
      {
        assert f[j] == f0[j] && Emitted(rs)[j] == Emitted(front)[j];
        assert rs[f0[j]] == front[f0[j]];
      }
    }
  }

  lemma {:induction false} ForwardedMembers<J>(rs: seq<Response<J>>)
    ensures forall i :: 0 <= i < |rs| ==> (rs[i].status != NotModified <==> i in Forwarded(rs))
    decreases |rs|
  {
    if rs != [] {
      var front := rs[..|rs| - 1];
      ForwardedMembers(front);
      ForwardedOrdered(front);
      var f, f0 := Forwarded(rs), Forwarded(front);
      forall i | 0 <= i < |rs|
        ensures rs[i].status != NotModified <==> i in f
      {
        if i < |front| {
          assert rs[i] == front[i];
          assert i in f0 <==> i in f;
        } else {
          assert i !in f0;
        }
      }
    }
  }

  /**
   * The sink gets one payload per reply whose status is not 304, whatever
   * else the status is, in reply order, and none for a 304.
   */
  lemma {:induction false} EmittedExactly<J>(rs: seq<Response<J>>)
    ensures var f := Forwarded(rs);
      && |Emitted(rs)| == |f|
      && (forall j :: 0 <= j < |f| ==> f[j] < |rs| && Emitted(rs)[j] == rs[f[j]].body)
      && (forall j1, j2 :: 0 <= j1 < j2 < |f| ==> f[j1] < f[j2])
      && (forall i :: 0 <= i < |rs| ==> (rs[i].status != NotModified <==> i in f))
  {
    ForwardedOrdered(rs);
    ForwardedBodies(rs);
    ForwardedMembers(rs);
  }

  /** Three replies and no stop: all three are read and the loop is still running. */
  lemma ThreeReplies<J>(a: Response<J>, b: Response<J>, d: Response<J>)
    ensures Read([Replied(a), Replied(b), Replied(d)]) == [a, b, d]
    ensures !StopAnswered([Replied(a), Replied(b), Replied(d)])
  {
    var events := [Replied(a), Replied(b), Replied(d)];
    var e1, e2 := [Replied(b), Replied(d)], [Replied(d)];
    assert !HasStop(events);
    assert events[1..] == e1 && e1[1..] == e2 && e2[1..] == [];
    assert Replies(e2) == [d];
    assert Replies(e1) == [b, d];
    ReadWithoutStop(events);
  }

  /**
   * A worked run: ETags 7, 7 and 9 with statuses 200, 304 and 200 on the
   * sub-path "foo".
   */
  lemma Scenario(c: Client, events: seq<Event<string>>)
    requires c == Client("http://host", "foo", 5, false)
    requires events == [Replied(Response(7, 200, "{a:1}")), Replied(Response(7, 304, "")), Replied(Response(9, 200, "{a:2}"))]
    ensures var s := Run(c, events);
      && s.sunk == ["{a:1}", "{a:2}"]
      && s.etag == 9
      && |s.gets| == 4
      && s.gets[0].url == "http://host/datastore/foo?client=5"
      && s.gets[1].ifNoneMatch == "7" && s.gets[3].ifNoneMatch == "9"
  {
    var r0, r1, r2 := events[0].response, events[1].response, events[2].response;
    var rs := [r0, r1, r2];
    var s := Run(c, events);
    assert Read(events) == rs && !StopAnswered(events) by {
      ThreeReplies(r0, r1, r2);
    }
    assert s.sunk == Emitted(rs) && s.etag == 9 by {
      RunEmits(c, events);
    }
    assert Emitted(rs) == ["{a:1}", "{a:2}"] by {
      EmittedSkipsMiddle(r0, r1, r2);
    }
    assert && |s.gets| == 4
           && s.gets[0].url == DatastoreUrl(c)
           && s.gets[1].ifNoneMatch == IntToString(7)
           && s.gets[3].ifNoneMatch == IntToString(9) by {
      RunTokens(c, events);
      assert s.gets[0 + 1].ifNoneMatch == IntToString(rs[0].etag);
      assert s.gets[2 + 1].ifNoneMatch == IntToString(rs[2].etag);
    }
    SmallNumerals();
    ScenarioUrl(c);
  }

  lemma EmittedSkipsMiddle<J>(a: Response<J>, b: Response<J>, d: Response<J>)
    requires a.status != NotModified && b.status == NotModified && d.status != NotModified
    ensures Emitted([a, b, d]) == [a.body, d.body]
  {
    assert [a][..0] == [];
    assert Emitted([a]) == [a.body];
    assert [a, b][..1] == [a];
    assert Emitted([a, b]) == [a.body];
    assert [a, b, d][..2] == [a, b];
    assert Emitted([a, b, d]) == Emitted([a, b]) + [d.body];
  }

  lemma ScenarioUrl(c: Client)
    requires c == Client("http://host", "foo", 5, false)
    ensures DatastoreUrl(c) == "http://host/datastore/foo?client=5"
  {
    SmallNumerals();
  }

  lemma SmallNumerals()
    ensures IntToString(5) == "5" && IntToString(7) == "7" && IntToString(9) == "9"
  {
    assert NatToString(5) == "5" && NatToString(7) == "7" && NatToString(9) == "9";
  }
}
