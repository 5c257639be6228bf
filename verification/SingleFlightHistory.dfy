/** The shared refresh against the history of replies: who joins a POST, when it starts, and how a request ends. */
module SingleFlightHistory {
  import opened Outcomes
  import opened SingleFlight

  // ---------- one event ----------

  /**
    * A reply sends a request to wait for a refresh exactly when it is a 401, the URL is no auth URL and the request was
    * not retried before. It then joins the POST under way, or starts one; any other reply ends it and nothing else.
    */
  lemma ReplyLaw(c: Client, r: RequestId, reply: Reply)
    requires FlightOk(c) && Enabled(c, Event.Reply(r, reply))
    ensures var after := Next(c, Event.Reply(r, reply));
            var request := c.requests[r];
            if reply == Unauthorized && !request.authUrl && !request.retry then
              && after.isRefreshing && after.refreshPromise.Some?
              && after.requests == c.requests[r := request.(retry := true, joined := after.refreshPromise,
                                                            phase := Waiting(after.refreshPromise))]
              && (if c.isRefreshing then after.posts == c.posts && after.refreshPromise == c.refreshPromise
                  else after.posts == c.posts + [Outstanding] && after.refreshPromise == Some(|c.posts|))
            else
              after == c.(requests := c.requests[r := request.(phase := Done(reply == Success))])
  {
  }

  /** A waiting request goes out again exactly when its POST succeeded, and fails otherwise. */
  lemma ResumeLaw(c: Client, r: RequestId)
    requires ClientOk(c) && Enabled(c, Resume(r))
    ensures var request := c.requests[r];
            var p := request.phase.on;
            && p.Some?
            && Next(c, Resume(r)) == c.(requests := c.requests[r :=
                 if c.posts[p.value] == Finished(true) then request.(sends := request.sends + 1, phase := OnWire)
                 else request.(phase := Done(false))])
  {
    assert RequestOk(c, c.requests[r]);
  }

  // ---------- whole histories ----------

  /** The replies request `r` got, in order. */
  function Replies(events: seq<Event>, r: RequestId): seq<Reply> {
    if |events| == 0 then []
    else
      var last := events[|events| - 1];
      Replies(events[..|events| - 1], r) + (if last.Reply? && last.request == r then [last.reply] else [])
  }

  /**
    * What its replies say of a request: one for each time it went out, save the one it still waits for; it joined a
    * POST exactly when the first was a 401 and the URL no auth URL; it succeeded exactly when the last was a success.
    */
  ghost predicate Tells(replies: seq<Reply>, q: Request) {
    && |replies| == q.sends - (if q.phase.OnWire? then 1 else 0)
    && (q.joined.Some? <==> !q.authUrl && |replies| > 0 && replies[0] == Unauthorized)
    && (q.phase.Done? ==> |replies| > 0 && (q.phase.ok <==> replies[|replies| - 1] == Success))
  }

  /** For every request sent, in order, whether its URL is an auth URL. */
  function Sent(events: seq<Event>): seq<bool> {
    if |events| == 0 then []
    else
      var last := events[|events| - 1];
      Sent(events[..|events| - 1]) + (if last.Send? then [last.authUrl] else [])
  }

  ghost predicate UrlsAre(requests: seq<Request>, urls: seq<bool>) {
    |requests| == |urls| && forall r :: 0 <= r < |urls| ==> requests[r].authUrl == urls[r]
  }

  lemma NextUrls(c: Client, e: Event, urls: seq<bool>)
    requires Enabled(c, e) && UrlsAre(c.requests, urls)
    ensures UrlsAre(Next(c, e).requests, urls + (if e.Send? then [e.authUrl] else []))
  {
  }

  /** There is one request for each one sent, with the URL it was sent with. */
  lemma {:induction false} UrlsAreKept(events: seq<Event>)
    requires CanRun(Start(), events)
    ensures UrlsAre(Run(Start(), events).requests, Sent(events))
  {
    if |events| > 0 {
      var front := events[..|events| - 1];
      UrlsAreKept(front);
      NextUrls(Run(Start(), front), events[|events| - 1], Sent(front));
    }
  }

  ghost predicate HistoryOk(c: Client, events: seq<Event>) {
    && (forall r :: 0 <= r < |c.requests| ==> Tells(Replies(events, r), c.requests[r]))
    && (forall r :: r >= |c.requests| ==> Replies(events, r) == [])
  }

  lemma RepliesGrow(events: seq<Event>, r: RequestId)
    requires |events| > 0
    ensures var last := events[|events| - 1];
            Replies(events, r) == Replies(events[..|events| - 1], r) +
            (if last.Reply? && last.request == r then [last.reply] else [])
  {
  }

  lemma NextTells(c: Client, e: Event, r: RequestId, replies: seq<Reply>)
    requires ClientOk(c) && Enabled(c, e) && r < |c.requests| && Tells(replies, c.requests[r])
    ensures r < |Next(c, e).requests|
    ensures Tells(replies + (if e.Reply? && e.request == r then [e.reply] else []), Next(c, e).requests[r])
  {
    assert RequestOk(c, c.requests[r]);
  }

  lemma {:induction false} HistoryIsTold(events: seq<Event>)
    requires CanRun(Start(), events)
    ensures HistoryOk(Run(Start(), events), events)
  {
    if |events| > 0 {
      var front, last := events[..|events| - 1], events[|events| - 1];
      var before, after := Run(Start(), front), Run(Start(), events);
      HistoryIsTold(front);
      RunKeepsOrder(Start(), front);
      forall r: RequestId
        ensures r < |after.requests| ==> Tells(Replies(events, r), after.requests[r])
        ensures r >= |after.requests| ==> Replies(events, r) == []
      {
        RepliesGrow(events, r);
        if r < |before.requests| {
          NextTells(before, last, r, Replies(front, r));
        }
      }
    }
  }

  /** A request joined a POST exactly when its first reply was a 401, and succeeded exactly when its last reply did. */
  ghost predicate EndsAsReplied(q: Request, authUrl: bool, replies: seq<Reply>) {
    && |replies| <= 2
    && (q.joined.Some? <==> !authUrl && |replies| > 0 && replies[0] == Unauthorized)
    && (q.phase.Done? ==>
          && |replies| > 0
          && (q.phase.ok <==> replies[|replies| - 1] == Success)
          && (!authUrl && replies[|replies| - 1] == Unauthorized ==> q.joined.Some?))
  }

  lemma TellsHowItEnds(c: Client, q: Request, replies: seq<Reply>)
    requires RequestOk(c, q) && Tells(replies, q)
    ensures EndsAsReplied(q, q.authUrl, replies)
  {
  }

  /**
    * In every interleaving: the `r`th request sent joins a POST exactly when its URL is no auth URL and its first reply
    * is a 401, so that one which ended on a 401 had joined; and it succeeded exactly when its last reply did.
    */
  lemma JoinsIffUnauthorized(events: seq<Event>, r: RequestId)
    requires CanRun(Start(), events) && r < |Sent(events)|
    ensures var requests := Run(Start(), events).requests;
            |requests| == |Sent(events)| && EndsAsReplied(requests[r], Sent(events)[r], Replies(events, r))
  {
    HistoryIsTold(events);
    UrlsAreKept(events);
    RunKeepsOrder(Start(), events);
    var after := Run(Start(), events);
    TellsHowItEnds(after, after.requests[r], Replies(events, r));
  }

  // ---------- what a POST was answered ----------

  /** A POST has been answered exactly as the history says. */
  ghost predicate AnswersOk(c: Client, events: seq<Event>) {
    forall p: PostId, ok :: RefreshReply(p, ok) in events <==>
      p < |c.posts| && !c.posts[p].Outstanding? && c.posts[p].ok == ok
  }

  lemma NextAnswers(c: Client, e: Event, events: seq<Event>)
    requires FlightOk(c) && Enabled(c, e) && AnswersOk(c, events)
    ensures AnswersOk(Next(c, e), events + [e])
  {
    var after := Next(c, e);
    forall p: PostId, ok
      ensures RefreshReply(p, ok) in events + [e] <==>
        p < |after.posts| && !after.posts[p].Outstanding? && after.posts[p].ok == ok
    {
      assert RefreshReply(p, ok) in events + [e] <==> RefreshReply(p, ok) in events || RefreshReply(p, ok) == e;
    }
  }

  /** A refresh counts as succeeded exactly when its POST was answered so. */
  lemma {:induction false} AnswersAreTold(events: seq<Event>)
    requires CanRun(Start(), events)
    ensures AnswersOk(Run(Start(), events), events)
  {
    if |events| > 0 {
      var front, last := events[..|events| - 1], events[|events| - 1];
      AnswersAreTold(front);
      RunKeepsOrder(Start(), front);
      NextAnswers(Run(Start(), front), last, front);
      assert events == front + [last];
    }
  }

  /** Past its wait, a request that joined a POST went out again exactly when that POST was answered with success. */
  lemma SentAgainIff(events: seq<Event>, r: RequestId)
    requires CanRun(Start(), events) && r < |Run(Start(), events).requests|
    requires var q := Run(Start(), events).requests[r]; q.joined.Some? && !q.phase.Waiting?
    ensures var q := Run(Start(), events).requests[r];
            q.sends == 2 <==> RefreshReply(q.joined.value, true) in events
  {
    OneFlightOneOutcome(events);
    AnswersAreTold(events);
  }
}
