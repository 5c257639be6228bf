/** The storefront's HTTP client: requests that meet a 401 share one refresh, event by event. */
module SingleFlight {
  import opened Outcomes

  type RequestId = nat

  type PostId = nat

  /** A refresh POST: on the wire, answered (then/catch ran), and finished (finally ran, the promise resolves). */
  datatype Post = Outstanding | Answered(ok: bool) | Finished(ok: bool)

  /** Waiting on nothing stands for the promise already resolved to false. */
  datatype Phase = OnWire | Waiting(on: Option<PostId>) | Done(ok: bool)

  /** `authUrl`: the URL contains "/auth/"; `retry`: the `_retry` flag; `sends`: how often it went out. */
  datatype Request = Request(authUrl: bool, retry: bool, sends: nat, joined: Option<PostId>, phase: Phase)

  datatype Client = Client(isRefreshing: bool, refreshPromise: Option<PostId>, posts: seq<Post>, requests: seq<Request>)

  datatype Reply = Success | Unauthorized | Failure

  datatype Event =
    | Send(authUrl: bool)
    | Reply(request: RequestId, reply: Reply)
    | RefreshReply(post: PostId, ok: bool)
    | Finally(post: PostId)
    | Resume(request: RequestId)

  function Start(): Client { Client(false, None, [], []) }

  predicate Enabled(c: Client, e: Event) {
    match e
    case Send(_) => true
    case Reply(r, _) => r < |c.requests| && c.requests[r].phase == OnWire
    case RefreshReply(p, _) => p < |c.posts| && c.posts[p] == Outstanding
    case Finally(p) => p < |c.posts| && c.posts[p].Answered?
    case Resume(r) =>
      && r < |c.requests| && c.requests[r].phase.Waiting?
      && (c.requests[r].phase.on.None? ||
          (c.requests[r].phase.on.value < |c.posts| && c.posts[c.requests[r].phase.on.value].Finished?))
  }

  /** The refresh function: start a POST unless one is under way, and answer with the shared promise. */
  function EnsureRefresh(c: Client): Client {
    if c.isRefreshing then c
    else c.(isRefreshing := true, refreshPromise := Some(|c.posts|), posts := c.posts + [Outstanding])
  }

  predicate MayRefresh(r: Request, reply: Reply) {
    reply == Unauthorized && !r.authUrl && !r.retry
  }

  function WithRequest(c: Client, r: RequestId, request: Request): Client
    requires r < |c.requests|
  {
    c.(requests := c.requests[r := request])
  }

  /** An event that cannot happen changes nothing. */
  function Next(c: Client, e: Event): Client {
    if !Enabled(c, e) then c
    else match e
    case Send(authUrl) => c.(requests := c.requests + [Request(authUrl, false, 1, None, OnWire)])
    case Reply(r, reply) =>
      var request := c.requests[r];
      if MayRefresh(request, reply) then
        var c' := EnsureRefresh(c);
        WithRequest(c', r, request.(retry := true, joined := c'.refreshPromise, phase := Waiting(c'.refreshPromise)))
      else WithRequest(c, r, request.(phase := Done(reply == Success)))
    case RefreshReply(p, ok) => c.(posts := c.posts[p := Answered(ok)])
    case Finally(p) =>
      c.(isRefreshing := false, refreshPromise := None, posts := c.posts[p := Finished(c.posts[p].ok)])
    case Resume(r) =>
      var request := c.requests[r];
      if request.phase.on.Some? && c.posts[request.phase.on.value].ok then
        WithRequest(c, r, request.(sends := request.sends + 1, phase := OnWire))
      else WithRequest(c, r, request.(phase := Done(false)))
  }

  function Run(c: Client, events: seq<Event>): Client {
    if |events| == 0 then c else Next(Run(c, events[..|events| - 1]), events[|events| - 1])
  }

  /** The events can happen one after the other. */
  ghost predicate CanRun(c: Client, events: seq<Event>) {
    |events| > 0 ==>
      && CanRun(c, events[..|events| - 1])
      && Enabled(Run(c, events[..|events| - 1]), events[|events| - 1])
  }

  // ---------- the invariant ----------

  /** The flag, the promise and the POSTs agree: only the newest POST can be unfinished, and then both name it. */
  ghost predicate FlightOk(c: Client) {
    && (c.isRefreshing <==> c.refreshPromise.Some?)
    && (c.refreshPromise.Some? ==>
      && |c.posts| > 0 && c.refreshPromise.value == |c.posts| - 1
      && !c.posts[|c.posts| - 1].Finished?)
    && (forall p :: 0 <= p < |c.posts| && c.refreshPromise != Some(p) ==> c.posts[p].Finished?)
  }

  /** A request joins at most one POST, and what becomes of it is that POST's outcome. */
  ghost predicate RequestOk(c: Client, r: Request) {
    && (r.retry <==> r.joined.Some?)
    && (r.joined.Some? ==> r.joined.value < |c.posts|)
    && (r.phase.Waiting? ==> r.phase.on == r.joined && r.joined.Some? && r.sends == 1)
    && (!r.retry ==> r.sends == 1)
    && 1 <= r.sends <= 2
    && (r.retry && !r.phase.Waiting? ==> c.posts[r.joined.value] == Finished(r.sends == 2))
    && (r.retry && r.sends == 1 && !r.phase.Waiting? ==> r.phase == Done(false))
  }

  ghost predicate ClientOk(c: Client) {
    FlightOk(c) && forall i :: 0 <= i < |c.requests| ==> RequestOk(c, c.requests[i])
  }

  lemma FlightKept(c: Client, e: Event)
    requires FlightOk(c)
    ensures FlightOk(Next(c, e))
  {
  }

  /** What is true of a request stays true when POSTs are added or move on, except to the one that acts. */
  lemma BystanderKept(c: Client, e: Event, r: Request)
    requires FlightOk(c) && RequestOk(c, r)
    ensures RequestOk(c.(posts := Next(c, e).posts), r)
  {
  }

  lemma ActorKept(c: Client, e: Event, r: RequestId)
    requires ClientOk(c) && Enabled(c, e) && r < |c.requests|
    requires e == Resume(r) || (e.Reply? && e.request == r)
    ensures RequestOk(Next(c, e), Next(c, e).requests[r])
  {
    assert RequestOk(c, c.requests[r]);
  }

  lemma NextKeepsOrder(c: Client, e: Event)
    requires ClientOk(c)
    ensures ClientOk(Next(c, e))
  {
    FlightKept(c, e);
    var after := Next(c, e);
    forall i: nat | i < |after.requests| ensures RequestOk(after, after.requests[i]) {
      if Enabled(c, e) && (e == Resume(i) || (e.Reply? && e.request == i)) {
        ActorKept(c, e, i);
      } else if i < |c.requests| {
        BystanderKept(c, e, c.requests[i]);
      }
    }
  }

  lemma {:induction false} RunKeepsOrder(c: Client, events: seq<Event>)
    requires ClientOk(c)
    ensures ClientOk(Run(c, events))
  {
    if |events| > 0 {
      RunKeepsOrder(c, events[..|events| - 1]);
      NextKeepsOrder(Run(c, events[..|events| - 1]), events[|events| - 1]);
    }
  }

  /** Whoever joined a POST and is past waiting for it was sent again exactly when that POST succeeded. */
  ghost predicate OutcomeIsShared(c: Client) {
    forall i :: 0 <= i < |c.requests| && c.requests[i].joined.Some? && !c.requests[i].phase.Waiting? ==>
      && c.requests[i].joined.value < |c.posts|
      && c.posts[c.requests[i].joined.value] == Finished(c.requests[i].sends == 2)
  }

  /** In every interleaving at most one POST is unfinished, and all who joined a POST fare as it did. */
  lemma OneFlightOneOutcome(events: seq<Event>)
    ensures var after := Run(Start(), events);
            && (forall p, q :: 0 <= p < |after.posts| && 0 <= q < |after.posts| ==>
                  after.posts[p].Finished? || after.posts[q].Finished? || p == q)
            && (after.isRefreshing <==> after.refreshPromise.Some?)
            && (after.isRefreshing <==> exists p :: 0 <= p < |after.posts| && !after.posts[p].Finished?)
            && OutcomeIsShared(after)
            && (forall i :: 0 <= i < |after.requests| ==> 1 <= after.requests[i].sends <= 2)
  {
    RunKeepsOrder(Start(), events);
    var after := Run(Start(), events);
    if after.isRefreshing {
      assert !after.posts[|after.posts| - 1].Finished?;
    }
  }

  // ---------- how much work there can be ----------

  function PostWork(p: Post): nat {
    match p
    case Outstanding => 2
    case Answered(_) => 1
    case Finished(_) => 0
  }

  function RequestWork(r: Request): nat {
    match r.phase
    case OnWire => if r.retry then 1 else 5
    case Waiting(_) => 2
    case Done(_) => 0
  }

  function PostsWork(posts: seq<Post>): nat {
    if |posts| == 0 then 0 else PostsWork(posts[..|posts| - 1]) + PostWork(posts[|posts| - 1])
  }

  function RequestsWork(requests: seq<Request>): nat {
    if |requests| == 0 then 0
    else RequestsWork(requests[..|requests| - 1]) + RequestWork(requests[|requests| - 1])
  }

  /** An upper bound on the events still to come, should no further request be sent. */
  function Work(c: Client): nat {
    PostsWork(c.posts) + RequestsWork(c.requests)
  }

  /** Requests that have asked for a refresh. */
  function Retries(requests: seq<Request>): nat {
    if |requests| == 0 then 0
    else Retries(requests[..|requests| - 1]) + (if requests[|requests| - 1].retry then 1 else 0)
  }

  function Sends(events: seq<Event>): nat {
    if |events| == 0 then 0
    else Sends(events[..|events| - 1]) + (if events[|events| - 1].Send? then 1 else 0)
  }

  lemma {:induction false} PostsWorkUpdate(posts: seq<Post>, p: nat, post: Post)
    requires p < |posts|
    ensures PostsWork(posts[p := post]) == PostsWork(posts) - PostWork(posts[p]) + PostWork(post)
  {
    if p == |posts| - 1 {
      assert posts[p := post][..p] == posts[..p];
    } else {
      PostsWorkUpdate(posts[..|posts| - 1], p, post);
      assert posts[p := post][..|posts| - 1] == posts[..|posts| - 1][p := post];
    }
  }

  lemma {:induction false} RequestsUpdate(requests: seq<Request>, r: nat, request: Request)
    requires r < |requests|
    ensures RequestsWork(requests[r := request]) ==
      RequestsWork(requests) - RequestWork(requests[r]) + RequestWork(request)
    ensures Retries(requests[r := request]) ==
      Retries(requests) - (if requests[r].retry then 1 else 0) + (if request.retry then 1 else 0)
  {
    if r == |requests| - 1 {
      assert requests[r := request][..r] == requests[..r];
    } else {
      RequestsUpdate(requests[..|requests| - 1], r, request);
      assert requests[r := request][..|requests| - 1] == requests[..|requests| - 1][r := request];
    }
  }

  lemma RequestsAppended(requests: seq<Request>, request: Request)
    ensures RequestsWork(requests + [request]) == RequestsWork(requests) + RequestWork(request)
    ensures Retries(requests + [request]) == Retries(requests) + (if request.retry then 1 else 0)
  {
    assert (requests + [request])[..|requests|] == requests;
  }

  lemma PostsAppended(posts: seq<Post>, post: Post)
    ensures PostsWork(posts + [post]) == PostsWork(posts) + PostWork(post)
  {
    assert (posts + [post])[..|posts|] == posts;
  }

  lemma ReplyUsesWork(c: Client, r: RequestId, reply: Reply)
    requires Enabled(c, Event.Reply(r, reply))
    ensures var after := Next(c, Event.Reply(r, reply));
            && Work(after) < Work(c)
            && |after.posts| - Retries(after.requests) <= |c.posts| - Retries(c.requests)
            && |after.requests| == |c.requests|
  {
    var after := Next(c, Event.Reply(r, reply));
    PostsAppended(c.posts, Outstanding);
    RequestsUpdate(c.requests, r, after.requests[r]);
    if MayRefresh(c.requests[r], reply) {
      assert after.requests == c.requests[r := after.requests[r]];
      assert PostsWork(after.posts) <= PostsWork(c.posts) + 2;
    }
  }

  lemma ResumeUsesWork(c: Client, r: RequestId)
    requires ClientOk(c) && Enabled(c, Resume(r))
    ensures var after := Next(c, Resume(r));
            && Work(after) < Work(c)
            && after.posts == c.posts
            && Retries(after.requests) == Retries(c.requests)
            && |after.requests| == |c.requests|
  {
    assert RequestOk(c, c.requests[r]);
    RequestsUpdate(c.requests, r, Next(c, Resume(r)).requests[r]);
  }

  /** Every event but a new request uses work up, and every new POST is owed to a request's one retry. */
  lemma EventUsesWork(c: Client, e: Event)
    requires ClientOk(c) && Enabled(c, e)
    ensures var after := Next(c, e);
            && (if e.Send? then Work(after) == Work(c) + 5 else Work(after) < Work(c))
            && |after.posts| - Retries(after.requests) <= |c.posts| - Retries(c.requests)
            && |after.requests| == |c.requests| + (if e.Send? then 1 else 0)
  {
    match e
    case Send(authUrl) => RequestsAppended(c.requests, Request(authUrl, false, 1, None, OnWire));
    case Reply(r, reply) => ReplyUsesWork(c, r, reply);
    case RefreshReply(p, ok) => PostsWorkUpdate(c.posts, p, Answered(ok));
    case Finally(p) => PostsWorkUpdate(c.posts, p, Finished(c.posts[p].ok));
    case Resume(r) => ResumeUsesWork(c, r);
  }

  lemma {:induction false} RetriesAtMost(requests: seq<Request>)
    ensures Retries(requests) <= |requests|
  {
    if |requests| > 0 {
      RetriesAtMost(requests[..|requests| - 1]);
    }
  }

  lemma {:induction false} RunUsesWork(events: seq<Event>)
    requires CanRun(Start(), events)
    ensures var after := Run(Start(), events);
            && |events| + Work(after) <= 6 * Sends(events)
            && |after.requests| == Sends(events)
            && |after.posts| <= Retries(after.requests)
  {
    if |events| > 0 {
      var front, last := events[..|events| - 1], events[|events| - 1];
      RunUsesWork(front);
      RunKeepsOrder(Start(), front);
      EventUsesWork(Run(Start(), front), last);
    }
  }

  /** n requests are over after at most 6n events, n POSTs included. */
  lemma RequestsTerminate(events: seq<Event>)
    requires CanRun(Start(), events)
    ensures |events| <= 6 * Sends(events)
    ensures |Run(Start(), events).posts| <= Sends(events) == |Run(Start(), events).requests|
  {
    RunUsesWork(events);
    RetriesAtMost(Run(Start(), events).requests);
  }

  ghost predicate Settled(c: Client) {
    !c.isRefreshing && forall r :: 0 <= r < |c.requests| ==> c.requests[r].phase.Done?
  }

  /** Nothing hangs: as long as a request is not done or a refresh is under way, some event can happen. */
  lemma NothingHangs(events: seq<Event>)
    ensures var after := Run(Start(), events);
            Settled(after) <==> !exists e: Event :: !e.Send? && Enabled(after, e)
  {
    RunKeepsOrder(Start(), events);
    var after := Run(Start(), events);
    if after.isRefreshing {
      var p := |after.posts| - 1;
      var e := if after.posts[p].Outstanding? then RefreshReply(p, true) else Finally(p);
      assert !e.Send? && Enabled(after, e);
    } else if r :| 0 <= r < |after.requests| && !after.requests[r].phase.Done? {
      assert RequestOk(after, after.requests[r]);
      var e := if after.requests[r].phase.OnWire? then Event.Reply(r, Success) else Resume(r);
      assert !e.Send? && Enabled(after, e);
    }
  }

  // ---------- one POST per burst ----------

  function Finishes(events: seq<Event>): nat {
    if |events| == 0 then 0
    else Finishes(events[..|events| - 1]) + (if events[|events| - 1].Finally? then 1 else 0)
  }

  /** However many requests fail at once, a POST is started only after the previous one finished. */
  lemma {:induction false} PostsFollowFinishes(events: seq<Event>)
    requires CanRun(Start(), events)
    ensures var after := Run(Start(), events);
            |after.posts| == Finishes(events) + (if after.isRefreshing then 1 else 0)
  {
    if |events| > 0 {
      var front, last := events[..|events| - 1], events[|events| - 1];
      PostsFollowFinishes(front);
      RunKeepsOrder(Start(), front);
      NextPosts(Run(Start(), front), last);
    }
  }

  lemma NextPosts(c: Client, e: Event)
    requires FlightOk(c) && Enabled(c, e)
    ensures var after := Next(c, e);
            |after.posts| - (if after.isRefreshing then 1 else 0) ==
            |c.posts| - (if c.isRefreshing then 1 else 0) + (if e.Finally? then 1 else 0)
  {
  }

  // ---------- the client as it runs ----------

  /** The module variables, and the POSTs and requests they are about. */
  class ApiClient {
    var isRefreshing: bool
    var refreshPromise: Option<PostId>
    var posts: seq<Post>
    var requests: seq<Request>

    ghost function Contents(): Client
      reads this
    {
      Client(isRefreshing, refreshPromise, posts, requests)
    }

    constructor ()
      ensures Contents() == Start()
    {
      isRefreshing, refreshPromise, posts, requests := false, None, [], [];
    }

    method Send(authUrl: bool) returns (r: RequestId)
      modifies `requests
      ensures r == |old(requests)| && Contents() == Next(old(Contents()), Event.Send(authUrl))
    {
      r := |requests|;
      requests := requests + [Request(authUrl, false, 1, None, OnWire)];
    }

    method Refresh() returns (promise: Option<PostId>)
      modifies `isRefreshing, `refreshPromise, `posts
      ensures Contents() == EnsureRefresh(old(Contents())) && promise == refreshPromise
    {
      if !isRefreshing {
        isRefreshing := true;
        refreshPromise := Some(|posts|);
        posts := posts + [Outstanding];
      }
      promise := refreshPromise;
    }

    method OnReply(r: RequestId, reply: Reply)
      requires Enabled(Contents(), Event.Reply(r, reply))
      modifies this
      ensures Contents() == Next(old(Contents()), Event.Reply(r, reply))
    {
      var original := requests[r];
      if reply == Unauthorized && !original.authUrl {
        if !original.retry {
          var promise := Refresh();
          requests := requests[r := original.(retry := true, joined := promise, phase := Waiting(promise))];
          return;
        }
      }
      requests := requests[r := original.(phase := Done(reply == Success))];
    }

    method OnRefreshReply(p: PostId, ok: bool)
      requires Enabled(Contents(), RefreshReply(p, ok))
      modifies `posts
      ensures Contents() == Next(old(Contents()), RefreshReply(p, ok))
    {
      posts := posts[p := Answered(ok)];
    }

    method OnFinally(p: PostId)
      requires Enabled(Contents(), Finally(p))
      modifies `isRefreshing, `refreshPromise, `posts
      ensures Contents() == Next(old(Contents()), Finally(p))
    {
      isRefreshing := false;
      refreshPromise := None;
      posts := posts[p := Finished(posts[p].ok)];
    }

    method OnResume(r: RequestId)
      requires Enabled(Contents(), Resume(r))
      modifies `requests
      ensures Contents() == Next(old(Contents()), Resume(r))
    {
      var original := requests[r];
      var ok := original.phase.on.Some? && posts[original.phase.on.value].ok;
      if ok {
        requests := requests[r := original.(sends := original.sends + 1, phase := OnWire)];
      } else {
        requests := requests[r := original.(phase := Done(false))];
      }
    }
  }
}
