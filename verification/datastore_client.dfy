/**
 * The state and the non-looping operations of a datastore client: its
 * construction, the lifecycle flag, the resource address it polls and
 * updates, and the effect of sending an update.
 */
module DatastoreClient {
  import opened Wrappers
  import opened Decimal

  /** Largest identity the client draws at random: 2^32 - 1. */
  const MaxClientId: int := 0x1_0000_0000 - 1

  /** Status the upstream returns for an accepted update. */
  const Accepted: int := 200

  /**
   * One client of the AVB datastore. `path` is the tracked sub-path, the
   * empty string standing for the root resource; `enabled` is the flag the
   * poll loop tests at the top of each iteration.
   */
  datatype Client = Client(avbUrl: string, path: string, clientId: int, enabled: bool)

  /**
   * Construction. `draw` stands for the random choice made when no identity
   * is supplied; every value in the range may be drawn.
   */
  function New(avbUrl: string, clientId: Option<int>, path: string, draw: int): (c: Client)
    requires 0 <= draw <= MaxClientId
    ensures c.avbUrl == avbUrl && c.path == path
    ensures clientId.Some? ==> c.clientId == clientId.value
    ensures clientId.None? ==> 0 <= c.clientId <= MaxClientId
    ensures !c.enabled
  {
    Client(avbUrl, path, if clientId.Some? then clientId.value else draw, false)
  }

  /** Asks the poll loop to stop at its next iteration. */
  function Stop(c: Client): (r: Client)
    ensures !r.enabled
    ensures r.avbUrl == c.avbUrl && r.path == c.path && r.clientId == c.clientId
  {
    c.(enabled := false)
  }

  /** Stopping twice is stopping once. */
  lemma StopIdempotent(c: Client)
    ensures Stop(Stop(c)) == Stop(c)
  {
  }

  /** The address of the tracked resource, tagged with the client's identity. */
  function DatastoreUrl(c: Client): string {
    if c.path != "" then
      c.avbUrl + "/datastore/" + c.path + "?client=" + IntToString(c.clientId)
    else
      c.avbUrl + "/datastore?client=" + IntToString(c.clientId)
  }

  /**
   * The address extends the base with "/datastore", then '?' for the root
   * path (no slash before the query) or '/' for any other path, and ends
   * with the decimal identity.
   */
  lemma UrlShape(c: Client)
    ensures var url := DatastoreUrl(c);
      && c.avbUrl + "/datastore" <= url
      && |url| > |c.avbUrl| + 10
      && url[|c.avbUrl| + 10] == (if c.path == "" then '?' else '/')
      && |IntToString(c.clientId)| < |url|
      && url[|url| - |IntToString(c.clientId)|..] == IntToString(c.clientId)
  {
  }

  /** What a resource address says, once the base address is known. */
  datatype Resource = Resource(path: string, clientId: int)

  /** Position of the last `ch` in `s`, or `|s|` when there is none. */
  function LastIndexOf(s: string, ch: char): (i: nat)
    ensures i <= |s|
    ensures i < |s| ==> s[i] == ch
    ensures i == |s| ==> ch !in s
    ensures forall j :: i < j < |s| ==> s[j] != ch
    decreases |s|
  {
    if s == [] then 0
    else if s[|s| - 1] == ch then |s| - 1
    else
      var k := LastIndexOf(s[..|s| - 1], ch);
      if k == |s| - 1 then |s| else k
  }

  /** The part of a resource address between "/datastore" and the query: empty for the root. */
  function Segment(path: string): string {
    if path == "" then "" else "/" + path
  }

  /**
   * Reads a resource address built on `base` back into the sub-path and the
   * identity: the inverse of `DatastoreUrl`.
   */
  function ParseUrl(base: string, url: string): Option<Resource> {
    var head := base + "/datastore";
    if head <= url then ParseTail(url[|head|..]) else None
  }

  /**
   * Reads what follows "/datastore": an optional "/" and sub-path, then
   * "?client=" and the identity. The sub-path may itself hold a '?', but the
   * identity never does, so the query starts after the last one.
   */
  function ParseTail(rest: string): Option<Resource> {
    var q := LastIndexOf(rest, '?');
    if q == |rest| then None
    else
      match (SegmentPath(rest[..q]), ParseQuery(rest[q + 1..]))
      case (Some(path), Some(id)) => Some(Resource(path, id))
      case _ => None
  }

  /** The sub-path a segment names: "" for the empty segment, the rest of "/p" for a non-empty p. */
  function SegmentPath(segment: string): Option<string> {
    if segment == "" then Some("")
    else if segment[0] == '/' && |segment| > 1 then Some(segment[1..])
    else None
  }

  /** The identity in a query "client=<integer>". */
  function ParseQuery(query: string): Option<int> {
    if "client=" <= query then ParseInt(query[7..]) else None
  }

  /** The last '?' before a query without one is the one that precedes it. */
  lemma SplitAtQuery(segment: string, query: string)
    requires '?' !in query
    ensures var rest := segment + "?" + query;
      && LastIndexOf(rest, '?') == |segment|
      && rest[..|segment|] == segment
      && rest[|segment| + 1..] == query
  {
    var rest := segment + "?" + query;
    assert forall j :: |segment| < j < |rest| ==> rest[j] == query[j - |segment| - 1];
    assert rest[|segment|] == '?';
  }

  lemma TailRoundTrip(path: string, id: int)
    ensures ParseTail(Segment(path) + "?client=" + IntToString(id)) == Some(Resource(path, id))
  {
    var segment := Segment(path);
    var query := "client=" + IntToString(id);
    var rest := segment + "?client=" + IntToString(id);
    assert rest == segment + "?" + query;
    assert SegmentPath(segment) == Some(path) by {
      if path != "" {
        assert segment[1..] == path;
      }
    }
    assert ParseQuery(query) == Some(id) by {
      assert query[7..] == IntToString(id);
      IntToStringRoundTrip(id);
    }
    assert '?' !in query by {
      IntToStringChars(id);
      assert forall j :: 7 <= j < |query| ==> query[j] == IntToString(id)[j - 7];
    }
    SplitAtQuery(segment, query);
  }

  /** The address determines the sub-path and the identity. */
  lemma UrlRoundTrip(c: Client)
    ensures ParseUrl(c.avbUrl, DatastoreUrl(c)) == Some(Resource(c.path, c.clientId))
  {
    var url := DatastoreUrl(c);
    var head := c.avbUrl + "/datastore";
    var tail := Segment(c.path) + "?client=" + IntToString(c.clientId);
    if c.path == "" {
      assert "/datastore?client=" == "/datastore" + "?client=";
    } else {
      assert "/datastore/" == "/datastore" + "/";
    }
    assert url == head + tail;
    assert url[|head|..] == tail;
    TailRoundTrip(c.path, c.clientId);
  }

  /** Two clients of one server with different sub-paths or identities never share an address. */
  lemma UrlInjective(c1: Client, c2: Client)
    requires c1.avbUrl == c2.avbUrl
    ensures DatastoreUrl(c1) == DatastoreUrl(c2) <==> (c1.path == c2.path && c1.clientId == c2.clientId)
  {
    UrlRoundTrip(c1);
    UrlRoundTrip(c2);
  }

  /** The update request `send` issues: a PATCH of the resource with the message as its `json` field. */
  datatype Patch<J> = Patch(url: string, json: J)

  /** The request issued and whether a warning was logged about its reply. */
  datatype SendOutcome<J> = SendOutcome(patch: Patch<J>, warned: bool)

  /**
   * Sending an update. The client is an input only: nothing of its state
   * changes, and a rejected update is only logged.
   */
  function Send<J>(c: Client, message: J, status: int): (o: SendOutcome<J>)
    ensures o.patch.url == DatastoreUrl(c)
    ensures o.patch.json == message
    ensures o.warned <==> status != Accepted
  {
    SendOutcome(Patch(DatastoreUrl(c), message), status != Accepted)
  }
}
