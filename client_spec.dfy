/** What the account client's operations do, as functions on a value that
    holds the client's whole state, and what follows from them. The class
    `LemmyClient.Lemmy` is proved to behave as these functions say. */
module ClientSpec {
  import opened Api

  /** A client's state: its auth token, its community set, the replies its
      site has yet to give, and the requests it has sent so far. */
  datatype Client = Client(
    token: Option<string>,
    communities: set<Item>,
    replies: seq<Reply>,
    sent: seq<Request>)

  /** A login reply that sets the token: it does not raise and carries `jwt`. */
  predicate LoginOk(r: Reply) {
    !Raises(r) && r.body.jwt.Some?
  }

  // ---------------------------------------------------------------------
  // Listing communities, page by page
  // ---------------------------------------------------------------------

  /** The reply's `communities` field was read: this is what advances the
      page counter and sets the number of items fetched. */
  predicate ReadsPage(r: Reply) {
    !Raises(r) && r.body.communities.Some?
  }

  /** The reply ends pagination: its page does not hold exactly `PageLimit`
      items. */
  predicate EndsPaging(r: Reply) {
    ReadsPage(r) && |r.body.communities.value| != PageLimit
  }

  /** Some reply in `rs` ends pagination; otherwise the listing loop never
      stops. */
  predicate Terminates(rs: seq<Reply>) {
    exists i :: 0 <= i < |rs| && EndsPaging(rs[i])
  }

  /** How many replies one listing consumes: up to and including the first
      that ends pagination, or all of them when none does. */
  function PagesUsed(rs: seq<Reply>): (n: nat)
    ensures n <= |rs|
  {
    if rs == [] then 0
    else if EndsPaging(rs[0]) then 1
    else 1 + PagesUsed(rs[1..])
  }

  /** The actor_ids of a page's entries, up to the first malformed entry
      (indexing that one raises and abandons the rest of the page). */
  function ActorIds(entries: seq<Option<string>>): set<Item> {
    if entries == [] || entries[0].None? then {}
    else {Url(entries[0].value)} + ActorIds(entries[1..])
  }

  /** What one reply adds to the community set. */
  function PageItems(r: Reply): set<Item> {
    if ReadsPage(r) then ActorIds(r.body.communities.value) else {}
  }

  /** The number of replies in `rs` whose `communities` field was read. */
  function ReadCount(rs: seq<Reply>): nat {
    if rs == [] then 0
    else ReadCount(rs[..|rs| - 1]) + (if ReadsPage(rs[|rs| - 1]) then 1 else 0)
  }

  /** Everything the replies `rs` add to the community set. */
  function Harvest(rs: seq<Reply>): set<Item> {
    if rs == [] then {}
    else Harvest(rs[..|rs| - 1]) + PageItems(rs[|rs| - 1])
  }

  /** The list requests answered by `rs`: each asks for the page after the
      pages read so far. */
  function ListRequests(typ: string, auth: Option<string>, rs: seq<Reply>): seq<Request> {
    if rs == [] then []
    else
      var before := rs[..|rs| - 1];
      ListRequests(typ, auth, before) + [ListReq(typ, auth, PageLimit, 1 + ReadCount(before))]
  }

  datatype FetchResult = FetchResult(after: Client, diverged: bool)

  /** Listing the communities of type `typ`: the replies up to the first one
      that ends pagination are consumed, their actor_ids are added to the
      set, and one request is logged per reply. When no reply ends
      pagination the loop never returns (`diverged`). */
  function Fetch(c: Client, typ: string): FetchResult {
    var n := PagesUsed(c.replies);
    var used := c.replies[..n];
    FetchResult(
      Client(c.token, c.communities + Harvest(used), c.replies[n..],
             c.sent + ListRequests(typ, c.token, used)),
      !Terminates(c.replies))
  }

  // ---------------------------------------------------------------------
  // Resolving and following communities
  // ---------------------------------------------------------------------

  /** The id a resolve reply yields: `None` whenever the request raises or
      the reply lacks `community.community.id`. */
  function ResolvedId(r: Reply): Option<int> {
    if Raises(r) then None else r.body.communityId
  }

  /** Python truthiness of a resolved id: present and non-zero. */
  predicate Truthy(id: Option<int>) {
    id.Some? && id.value != 0
  }

  /** A follow reply that counts as a success: no exception and status 200. */
  predicate FollowAccepted(r: Reply) {
    !Raises(r) && r.status == 200
  }

  /** What subscribing to a batch produces: the ids added to the set, the
      requests sent, and the replies left. */
  datatype Trace = Trace(added: set<Item>, sent: seq<Request>, rest: seq<Reply>)

  /** Subscribing to one reference: resolve it, and follow it when the id is
      truthy; an accepted follow records the id. */
  function SubscribeStep(url: Item, rs: seq<Reply>, auth: Option<string>): Trace {
    var resolve := ResolveReq(url, auth);
    var id := ResolvedId(Head(rs));
    if Truthy(id) then
      var accepted := FollowAccepted(Head(Tail(rs)));
      Trace(if accepted then {Id(id.value)} else {},
            [resolve, FollowReq(id.value, true, auth)],
            Tail(Tail(rs)))
    else
      Trace({}, [resolve], Tail(rs))
  }

  /** Subscribing to `urls` in order, each on its own. */
  function SubscribeTrace(urls: seq<Item>, rs: seq<Reply>, auth: Option<string>): Trace
    decreases |urls|
  {
    if urls == [] then Trace({}, [], rs)
    else
      var s := SubscribeStep(urls[0], rs, auth);
      var t := SubscribeTrace(urls[1..], s.rest, auth);
      Trace(s.added + t.added, s.sent + t.sent, t.rest)
  }

  lemma AppendAssoc<T>(a: seq<T>, b: seq<T>, c: seq<T>)
    ensures (a + b) + c == a + (b + c)
  {
  }

  /** The client after subscribing to `urls`. */
  function AfterSubscribe(c: Client, urls: seq<Item>): Client {
    var t := SubscribeTrace(urls, c.replies, c.token);
    Client(c.token, c.communities + t.added, t.rest, c.sent + t.sent)
  }

  /** The communities that resolve requests in `reqs` ask about, in order. */
  function ResolveTargets(reqs: seq<Request>): seq<Item> {
    if reqs == [] then []
    else (if reqs[0].ResolveReq? then [reqs[0].q] else []) + ResolveTargets(reqs[1..])
  }

  /** The community ids that follow requests in `reqs` ask for, in order. */
  function FollowTargets(reqs: seq<Request>): seq<int> {
    if reqs == [] then []
    else (if reqs[0].FollowReq? then [reqs[0].communityId] else []) + FollowTargets(reqs[1..])
  }

  // ---------------------------------------------------------------------
  // Properties of listing
  // ---------------------------------------------------------------------

  /** Pagination stops right after the first reply whose page does not hold
      `PageLimit` items; when there is none, every reply is consumed. */
  lemma {:induction false} PagingStopsAtFirstShortPage(rs: seq<Reply>)
    ensures Terminates(rs) ==>
      var n := PagesUsed(rs);
      0 < n && EndsPaging(rs[n - 1]) && forall i :: 0 <= i < n - 1 ==> !EndsPaging(rs[i])
    ensures !Terminates(rs) ==> PagesUsed(rs) == |rs|
  {
    if rs != [] && !EndsPaging(rs[0]) {
      PagingStopsAtFirstShortPage(rs[1..]);
      if Terminates(rs) {
        var j :| 0 <= j < |rs| && EndsPaging(rs[j]);
        assert EndsPaging(rs[1..][j - 1]);
        var n := PagesUsed(rs[1..]);
        forall i | 0 <= i < n ensures !EndsPaging(rs[i]) {
          if i > 0 { assert rs[i] == rs[1..][i - 1]; }
        }
      } else {
        forall j | 0 <= j < |rs[1..]| ensures !EndsPaging(rs[1..][j]) {
          assert rs[1..][j] == rs[j + 1];
        }
      }
    }
  }

  /** The first list request asks for page 1 with limit `PageLimit`; each
      later one asks for one page more than the number of pages read before
      it. */
  lemma {:induction false} PageNumbering(typ: string, auth: Option<string>, rs: seq<Reply>)
    ensures |ListRequests(typ, auth, rs)| == |rs|
    ensures forall i :: 0 <= i < |rs| ==>
      ListRequests(typ, auth, rs)[i] == ListReq(typ, auth, PageLimit, 1 + ReadCount(rs[..i]))
  {
    if rs != [] {
      var before := rs[..|rs| - 1];
      PageNumbering(typ, auth, before);
      forall i | 0 <= i < |before| ensures before[..i] == rs[..i] { }
    }
  }

  /** The page counter goes up by exactly one after a reply whose
      `communities` field was read, and stays put otherwise: a failed request
      is followed by a request for the same page. */
  lemma PageAdvance(typ: string, auth: Option<string>, rs: seq<Reply>, i: nat)
    requires i + 1 < |rs|
    ensures var reqs := ListRequests(typ, auth, rs);
      |reqs| == |rs| && reqs[0] == ListReq(typ, auth, PageLimit, 1) &&
      reqs[i].ListReq? && reqs[i + 1].ListReq? &&
      reqs[i + 1].page == reqs[i].page + (if ReadsPage(rs[i]) then 1 else 0)
  {
    PageNumbering(typ, auth, rs);
    assert rs[..i + 1][..i] == rs[..i];
  }

  lemma {:induction false} ReadCountCons(f: Reply, rs: seq<Reply>)
    ensures ReadCount([f] + rs) == (if ReadsPage(f) then 1 else 0) + ReadCount(rs)
  {
    if rs != [] {
      var before := rs[..|rs| - 1];
      assert ([f] + rs)[..|rs|] == [f] + before;
      ReadCountCons(f, before);
    }
  }

  lemma {:induction false} HarvestCons(f: Reply, rs: seq<Reply>)
    ensures Harvest([f] + rs) == PageItems(f) + Harvest(rs)
  {
    if rs != [] {
      var before := rs[..|rs| - 1];
      assert ([f] + rs)[..|rs|] == [f] + before;
      HarvestCons(f, before);
    }
  }

  lemma {:induction false} ListRequestsCons(typ: string, auth: Option<string>, f: Reply, rs: seq<Reply>)
    requires !ReadsPage(f)
    ensures ListRequests(typ, auth, [f] + rs) == [ListReq(typ, auth, PageLimit, 1)] + ListRequests(typ, auth, rs)
  {
    if rs != [] {
      var before := rs[..|rs| - 1];
      assert ([f] + rs)[..|rs|] == [f] + before;
      ListRequestsCons(typ, auth, f, before);
      ReadCountCons(f, before);
    }
  }

  /** A failed page request is retried: a reply that raises, or that lacks
      the `communities` field, costs one extra request for the same page and
      otherwise changes nothing, so a failure never shortens the result. */
  lemma FailedPageIsRetried(c: Client, typ: string, f: Reply)
    requires !ReadsPage(f)
    ensures Fetch(c.(replies := [f] + c.replies), typ) ==
            Fetch(c.(sent := c.sent + [ListReq(typ, c.token, PageLimit, 1)]), typ)
  {
    var rs := c.replies;
    var n := PagesUsed(rs);
    assert PagesUsed([f] + rs) == 1 + n by { assert ([f] + rs)[1..] == rs; }
    assert ([f] + rs)[..1 + n] == [f] + rs[..n];
    assert ([f] + rs)[1 + n..] == rs[n..];
    HarvestCons(f, rs[..n]);
    ListRequestsCons(typ, c.token, f, rs[..n]);
    assert Terminates([f] + rs) == Terminates(rs) by {
      if Terminates(rs) {
        var j :| 0 <= j < |rs| && EndsPaging(rs[j]);
        assert ([f] + rs)[j + 1] == rs[j];
      }
      if Terminates([f] + rs) {
        var j :| 0 <= j < |[f] + rs| && EndsPaging(([f] + rs)[j]);
        assert j > 0 && rs[j - 1] == ([f] + rs)[j];
      }
    }
  }

  /** A well-formed page listing the actor_ids `xs`. */
  function Page(xs: seq<string>): Reply {
    Response(200, Body(None, Some(seq(|xs|, i requires 0 <= i < |xs| => Some(xs[i]))), None))
  }

  lemma {:induction false} ActorIdsOfWellFormedPage(xs: seq<string>)
    ensures ActorIds(seq(|xs|, i requires 0 <= i < |xs| => Some(xs[i]))) == set x | x in xs :: Url(x)
  {
    var es := seq(|xs|, i requires 0 <= i < |xs| => Some(xs[i]));
    if xs != [] {
      ActorIdsOfWellFormedPage(xs[1..]);
      assert es[1..] == seq(|xs[1..]|, i requires 0 <= i < |xs[1..]| => Some(xs[1..][i]));
      assert forall x :: x in xs <==> x == xs[0] || x in xs[1..];
    }
  }

  /** Pages of 50, 50 and 30 items take exactly three requests, for pages 1,
      2 and 3, and add every actor_id of the three pages. */
  lemma ThreePagesExample(c: Client, typ: string, a: seq<string>, b: seq<string>, d: seq<string>, more: seq<Reply>)
    requires |a| == 50 && |b| == 50 && |d| == 30
    requires c.replies == [Page(a), Page(b), Page(d)] + more
    ensures !Fetch(c, typ).diverged
    ensures Fetch(c, typ).after.replies == more
    ensures Fetch(c, typ).after.sent == c.sent + [ListReq(typ, c.token, 50, 1),
                                                   ListReq(typ, c.token, 50, 2),
                                                   ListReq(typ, c.token, 50, 3)]
    ensures Fetch(c, typ).after.communities ==
            c.communities + (set x | x in a + b + d :: Url(x))
  {
    var rs := c.replies;
    assert rs[0] == Page(a) && !EndsPaging(Page(a));
    assert rs[1..][0] == Page(b) && !EndsPaging(Page(b));
    assert rs[1..][1..][0] == Page(d) && EndsPaging(Page(d));
    assert PagesUsed(rs[1..][1..]) == 1;
    assert PagesUsed(rs) == 3;
    assert rs[3..] == more;
    var used := rs[..3];
    assert used == [Page(a), Page(b), Page(d)];
    assert used[..2] == [Page(a), Page(b)];
    assert used[..2][..1] == [Page(a)];
    assert used[..2][..1][..0] == [];
    assert ReadCount(used[..2][..1]) == 1;
    assert ReadCount(used[..2]) == 2;
    assert ListRequests(typ, c.token, used[..2][..1]) == [ListReq(typ, c.token, 50, 1)];
    assert ListRequests(typ, c.token, used[..2]) == [ListReq(typ, c.token, 50, 1), ListReq(typ, c.token, 50, 2)];
    ActorIdsOfWellFormedPage(a);
    ActorIdsOfWellFormedPage(b);
    ActorIdsOfWellFormedPage(d);
    assert Harvest(used[..2][..1]) == set x | x in a :: Url(x);
    assert Harvest(used[..2]) == (set x | x in a :: Url(x)) + (set x | x in b :: Url(x));
    assert Harvest(used) == (set x | x in a :: Url(x)) + (set x | x in b :: Url(x)) + (set x | x in d :: Url(x));
    assert forall x :: x in a + b + d <==> x in a || x in b || x in d;
  }

  /** An empty first page ends the listing after one request, adding nothing. */
  lemma EmptyFirstPageExample(c: Client, typ: string, more: seq<Reply>)
    requires c.replies == [Page([])] + more
    ensures !Fetch(c, typ).diverged
    ensures Fetch(c, typ).after == c.(replies := more, sent := c.sent + [ListReq(typ, c.token, 50, 1)])
  {
    var rs := c.replies;
    assert EndsPaging(rs[0]);
    assert rs[..1] == [Page([])];
    assert rs[..1][..0] == [];
    assert rs[1..] == more;
    assert Page([]).body.communities.value == [];
    assert Harvest(rs[..1]) == {};
    assert ListRequests(typ, c.token, rs[..1]) == [ListReq(typ, c.token, 50, 1)];
  }

  // ---------------------------------------------------------------------
  // Properties of subscribing
  // ---------------------------------------------------------------------

  /** Every URL of the batch is resolved, in input order, whatever happens
      to the others: a failure for one never stops the batch. */
  lemma {:induction false} SubscribeResolvesEveryUrl(urls: seq<Item>, rs: seq<Reply>, auth: Option<string>)
    ensures ResolveTargets(SubscribeTrace(urls, rs, auth).sent) == urls
  {
    if urls != [] {
      var s := SubscribeStep(urls[0], rs, auth);
      var t := SubscribeTrace(urls[1..], s.rest, auth);
      SubscribeResolvesEveryUrl(urls[1..], s.rest, auth);
      ResolveTargetsAppend(s.sent, t.sent);
      assert ResolveTargets(s.sent) == [urls[0]] by {
        if |s.sent| == 2 { assert s.sent[1..][1..] == []; }
      }
    }
  }

  /** Only ids are recorded, never URLs; each is truthy and had a follow
      request sent for it. */
  lemma {:induction false} SubscribeRecordsFollowedIds(urls: seq<Item>, rs: seq<Reply>, auth: Option<string>)
    ensures forall x :: x in SubscribeTrace(urls, rs, auth).added ==>
      x.Id? && x.id != 0 && FollowReq(x.id, true, auth) in SubscribeTrace(urls, rs, auth).sent
  {
    if urls != [] {
      var s := SubscribeStep(urls[0], rs, auth);
      SubscribeRecordsFollowedIds(urls[1..], s.rest, auth);
    }
  }

  /** Every follow request in `reqs` comes right after a resolve request,
      asks for a non-zero id and has `follow` set. */
  ghost predicate FollowsAfterResolve(reqs: seq<Request>) {
    forall i :: 0 <= i < |reqs| && reqs[i].FollowReq? ==>
      0 < i && reqs[i - 1].ResolveReq? && reqs[i].communityId != 0 && reqs[i].follow
  }

  /** A follow request is sent only right after a resolve request, and only
      for a truthy id with `follow` set. */
  lemma {:induction false} FollowOnlyAfterTruthyResolve(urls: seq<Item>, rs: seq<Reply>, auth: Option<string>)
    ensures FollowsAfterResolve(SubscribeTrace(urls, rs, auth).sent)
  {
    if urls != [] {
      var s := SubscribeStep(urls[0], rs, auth);
      var t := SubscribeTrace(urls[1..], s.rest, auth);
      FollowOnlyAfterTruthyResolve(urls[1..], s.rest, auth);
      var reqs := s.sent + t.sent;
      forall i | 0 <= i < |reqs| && reqs[i].FollowReq?
        ensures 0 < i && reqs[i - 1].ResolveReq? && reqs[i].communityId != 0 && reqs[i].follow
      {
        if i >= |s.sent| {
          assert reqs[i] == t.sent[i - |s.sent|];
          if i > |s.sent| { assert reqs[i - 1] == t.sent[i - 1 - |s.sent|]; }
        }
      }
    }
  }

  /** The replies left after `n` requests. */
  function Drop(rs: seq<Reply>, n: nat): seq<Reply> {
    if n == 0 then rs else Drop(Tail(rs), n - 1)
  }

  /** Pairs each request of `reqs` with the reply it consumes, in order, and
      collects the truthy ids that the resolve requests got back. */
  function TruthyResolvedIds(reqs: seq<Request>, rs: seq<Reply>): seq<int> {
    if reqs == [] then []
    else
      var id := ResolvedId(Head(rs));
      (if reqs[0].ResolveReq? && Truthy(id) then [id.value] else []) + TruthyResolvedIds(reqs[1..], Tail(rs))
  }

  /** Pairs each request of `reqs` with the reply it consumes, in order, and
      collects the ids of the follow requests whose reply is accepted. */
  function AcceptedFollows(reqs: seq<Request>, rs: seq<Reply>): set<Item> {
    if reqs == [] then {}
    else
      (if reqs[0].FollowReq? && FollowAccepted(Head(rs)) then {Id(reqs[0].communityId)} else {}) +
      AcceptedFollows(reqs[1..], Tail(rs))
  }

  /** Pairing the requests with the replies they consume: the follow
      requests go, in order, to exactly the truthy ids the resolve replies
      gave; the ids recorded are exactly those of the follows whose reply has
      status 200 without raising; one reply is consumed per request. */
  lemma {:induction false} SubscribePairsRequestsWithReplies(urls: seq<Item>, rs: seq<Reply>, auth: Option<string>)
    ensures var t := SubscribeTrace(urls, rs, auth);
      FollowTargets(t.sent) == TruthyResolvedIds(t.sent, rs) &&
      t.added == AcceptedFollows(t.sent, rs) &&
      t.rest == Drop(rs, |t.sent|)
  {
    if urls != [] {
      var s := SubscribeStep(urls[0], rs, auth);
      var t := SubscribeTrace(urls[1..], s.rest, auth);
      SubscribePairsRequestsWithReplies(urls[1..], s.rest, auth);
      assert FollowTargets(s.sent) == TruthyResolvedIds(s.sent, rs) &&
             s.added == AcceptedFollows(s.sent, rs) &&
             s.rest == Drop(rs, |s.sent|) by {
        var id := ResolvedId(Head(rs));
        if Truthy(id) {
          var follow := FollowReq(id.value, true, auth);
          assert s.sent[1..] == [follow] && [follow][1..] == [];
          assert TruthyResolvedIds([follow], Tail(rs)) == [];
          assert FollowTargets([follow]) == [id.value];
          assert AcceptedFollows([follow], Tail(rs)) == s.added;
          assert Drop(rs, 2) == Drop(Tail(rs), 1) == Tail(Tail(rs));
        } else {
          assert s.sent[1..] == [];
          assert Drop(rs, 1) == Tail(rs);
        }
      }
      FollowTargetsAppend(s.sent, t.sent);
      TruthyResolvedIdsAppend(s.sent, t.sent, rs);
      AcceptedFollowsAppend(s.sent, t.sent, rs);
      DropAdd(rs, |s.sent|, |t.sent|);
    }
  }

  lemma {:induction false} DropAdd(rs: seq<Reply>, m: nat, n: nat)
    ensures Drop(rs, m + n) == Drop(Drop(rs, m), n)
  {
    if m > 0 {
      DropAdd(Tail(rs), m - 1, n);
    }
  }

  lemma {:induction false} TruthyResolvedIdsAppend(a: seq<Request>, b: seq<Request>, rs: seq<Reply>)
    ensures TruthyResolvedIds(a + b, rs) == TruthyResolvedIds(a, rs) + TruthyResolvedIds(b, Drop(rs, |a|))
  {
    if a != [] {
      assert (a + b)[0] == a[0] && (a + b)[1..] == a[1..] + b;
      TruthyResolvedIdsAppend(a[1..], b, Tail(rs));
    } else {
      assert a + b == b;
    }
  }

  lemma {:induction false} AcceptedFollowsAppend(a: seq<Request>, b: seq<Request>, rs: seq<Reply>)
    ensures AcceptedFollows(a + b, rs) == AcceptedFollows(a, rs) + AcceptedFollows(b, Drop(rs, |a|))
  {
    if a != [] {
      assert (a + b)[0] == a[0] && (a + b)[1..] == a[1..] + b;
      AcceptedFollowsAppend(a[1..], b, Tail(rs));
    } else {
      assert a + b == b;
    }
  }

  /** A follow reply of status 200 records the id; a successful reply of
      any other status, 204 say, does not. */
  lemma FollowStatusExample(u: Item, auth: Option<string>, body: Body)
    ensures SubscribeTrace([u], [Resolved(7), Response(200, body)], auth).added == {Id(7)}
    ensures SubscribeTrace([u], [Resolved(7), Response(204, body)], auth).added == {}
  {
    assert [u][1..] == [];
  }

  lemma {:induction false} ResolveTargetsAppend(a: seq<Request>, b: seq<Request>)
    ensures ResolveTargets(a + b) == ResolveTargets(a) + ResolveTargets(b)
  {
    if a != [] {
      assert (a + b)[0] == a[0] && (a + b)[1..] == a[1..] + b;
      ResolveTargetsAppend(a[1..], b);
    } else {
      assert a + b == b;
    }
  }

  lemma {:induction false} FollowTargetsAppend(a: seq<Request>, b: seq<Request>)
    ensures FollowTargets(a + b) == FollowTargets(a) + FollowTargets(b)
  {
    if a != [] {
      assert (a + b)[0] == a[0] && (a + b)[1..] == a[1..] + b;
      FollowTargetsAppend(a[1..], b);
    } else {
      assert a + b == b;
    }
  }

  /** A reply to a resolve request that yields id `n`. */
  function Resolved(n: int): Reply {
    Response(200, Body(None, None, Some(n)))
  }

  /** Subscribing to a non-empty batch: the first reference's step, then
      the rest of the batch on the replies it leaves. */
  lemma {:induction false} SubscribeTraceCons(u: Item, urls: seq<Item>, rs: seq<Reply>, auth: Option<string>)
    ensures var s := SubscribeStep(u, rs, auth);
      SubscribeTrace([u] + urls, rs, auth).sent == s.sent + SubscribeTrace(urls, s.rest, auth).sent
  {
    assert ([u] + urls)[0] == u && ([u] + urls)[1..] == urls;
  }

  /** The follow targets of one step: the resolved id when it is truthy. */
  lemma {:induction false} FollowTargetsOfStep(u: Item, rs: seq<Reply>, auth: Option<string>)
    ensures var id := ResolvedId(Head(rs));
      FollowTargets(SubscribeStep(u, rs, auth).sent) == if Truthy(id) then [id.value] else []
  {
    var s := SubscribeStep(u, rs, auth);
    var id := ResolvedId(Head(rs));
    if Truthy(id) {
      var follow := FollowReq(id.value, true, auth);
      assert s.sent[1..] == [follow] && [follow][1..] == [];
      assert FollowTargets([follow]) == [id.value];
    } else {
      assert s.sent[1..] == [];
    }
  }

  /** Three references where the second fails to resolve: exactly two
      follow requests are sent, for the first and the third. */
  lemma ResolutionFailureExample(u1: Item, u2: Item, u3: Item, auth: Option<string>, f1: Reply, f3: Reply)
    ensures var t := SubscribeTrace([u1, u2, u3], [Resolved(1), f1, NoResponse, Resolved(3), f3], auth);
      FollowTargets(t.sent) == [1, 3] && ResolveTargets(t.sent) == [u1, u2, u3]
  {
    var rs := [Resolved(1), f1, NoResponse, Resolved(3), f3];
    var rs2 := [NoResponse, Resolved(3), f3];
    var rs3 := [Resolved(3), f3];
    var s1 := SubscribeStep(u1, rs, auth);
    var s2 := SubscribeStep(u2, rs2, auth);
    var s3 := SubscribeStep(u3, rs3, auth);
    assert s1.rest == rs2 && s2.rest == rs3;
    assert [u1, u2, u3] == [u1] + [u2, u3] && [u2, u3] == [u2] + [u3] && [u3] == [u3] + [];
    SubscribeTraceCons(u1, [u2, u3], rs, auth);
    SubscribeTraceCons(u2, [u3], rs2, auth);
    SubscribeTraceCons(u3, [], rs3, auth);
    var t3 := SubscribeTrace([u3], rs3, auth);
    var t2 := SubscribeTrace([u2, u3], rs2, auth);
    assert t3.sent == s3.sent + [];
    FollowTargetsOfStep(u1, rs, auth);
    FollowTargetsOfStep(u2, rs2, auth);
    FollowTargetsOfStep(u3, rs3, auth);
    FollowTargetsAppend(s1.sent, t2.sent);
    FollowTargetsAppend(s2.sent, t3.sent);
    FollowTargetsAppend(s3.sent, []);
    SubscribeResolvesEveryUrl([u1, u2, u3], rs, auth);
  }
}
