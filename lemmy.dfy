/** The account client: one session to one site, with its auth token and the
    set of communities it has seen or followed. Each method is proved to do
    what the matching function of `ClientSpec` says. */
module LemmyClient {
  import opened Api
  import opened ClientSpec

  /** The listing type the sync asks for. */
  const SubscribedType: string := "Subscribed"

  class Lemmy {
    /** The site's base URL, taken as given (its normalisation is not part
        of this model). */
    const siteUrl: string
    var authToken: Option<string>
    var userCommunities: set<Item>
    /** The replies the site will give to this client's next requests. */
    var replies: seq<Reply>
    /** The requests this client has sent, oldest first. */
    ghost var sent: seq<Request>

    /** The client's state as a `ClientSpec.Client` value. */
    ghost function State(): Client
      reads this
    {
      Client(authToken, userCommunities, replies, sent)
    }

    /** A new client has no token and an empty community set. */
    constructor (siteUrl: string, replies: seq<Reply>)
      ensures this.siteUrl == siteUrl && this.replies == replies
      ensures authToken == None && userCommunities == {} && sent == []
    {
      this.siteUrl := siteUrl;
      authToken := None;
      userCommunities := {};
      this.replies := replies;
      sent := [];
    }

    /** Sends `req` and takes the next reply; `ok` is false when the
        wrapper raises. */
    method RequestIt(req: Request) returns (ok: bool, resp: Reply)
      modifies this
      ensures resp == Head(old(replies)) && ok == !Raises(resp)
      ensures replies == Tail(old(replies)) && sent == old(sent) + [req]
      ensures authToken == old(authToken) && userCommunities == old(userCommunities)
    {
      resp := if replies == [] then NoResponse else replies[0];
      replies := if replies == [] then [] else replies[1..];
      sent := sent + [req];
      ok := !(resp.NoResponse? || 400 <= resp.status < 600);
    }

    /** Logs in: the token becomes the reply's `jwt`; on any failure the
        process exits with status 1 (`exited`) and the token is left as it
        was. */
    method Login(user: string, password: string) returns (exited: bool)
      modifies this
      ensures exited <==> !LoginOk(Head(old(replies)))
      ensures !exited ==> authToken == Some(Head(old(replies)).body.jwt.value)
      ensures exited ==> authToken == old(authToken)
      ensures userCommunities == old(userCommunities)
      ensures replies == Tail(old(replies)) && sent == old(sent) + [LoginReq(user, password)]
    {
      var ok, resp := RequestIt(LoginReq(user, password));
      if ok && resp.body.jwt.Some? {
        authToken := resp.body.jwt;
        exited := false;
      } else {
        exited := true;
      }
    }

    /** Lists the communities of type `typ`, page by page, adding each
        actor_id to the client's own set and returning that set. The set is
        never cleared, so it only grows. `diverged` means the listing never
        ends: the replies ran out before a page of other than `PageLimit`
        items came back. */
    method GetCommunities(typ: string) returns (comms: set<Item>, diverged: bool)
      modifies this
      ensures State() == Fetch(old(State()), typ).after
      ensures diverged == Fetch(old(State()), typ).diverged
      ensures comms == userCommunities && old(userCommunities) <= userCommunities
    {
      ghost var rs := replies;
      ghost var base := userCommunities;
      ghost var sent0 := sent;
      ghost var k := 0;
      var page := 1;
      var fetched := PageLimit;
      diverged := false;
      while fetched == PageLimit && !diverged
        invariant 0 <= k <= |rs| && replies == rs[k..]
        invariant authToken == old(authToken)
        invariant userCommunities == base + Harvest(rs[..k])
        invariant sent == sent0 + ListRequests(typ, authToken, rs[..k])
        invariant page == 1 + ReadCount(rs[..k])
        invariant forall i :: 0 <= i < k - 1 ==> !EndsPaging(rs[i])
        invariant fetched == PageLimit ==> forall i :: 0 <= i < k ==> !EndsPaging(rs[i])
        invariant fetched != PageLimit ==> 0 < k && EndsPaging(rs[k - 1])
        invariant diverged ==> k == |rs| && fetched == PageLimit
        decreases |replies| + (if diverged then 0 else 1)
      {
        if replies == [] {
          diverged := true;
        } else {
          assert rs[..k + 1][..k] == rs[..k];
          var ok, resp := RequestIt(ListReq(typ, authToken, PageLimit, page));
          if ok && resp.body.communities.Some? {
            var entries := resp.body.communities.value;
            fetched := |entries|;
            page := page + 1;
            ghost var before := userCommunities;
            var j := 0;
            while j < |entries| && entries[j].Some?
              modifies this`userCommunities
              invariant 0 <= j <= |entries|
              invariant userCommunities + ActorIds(entries[j..]) == before + ActorIds(entries)
            {
              assert entries[j..][1..] == entries[j + 1..];
              userCommunities := userCommunities + {Url(entries[j].value)};
              j := j + 1;
            }
          }
          k := k + 1;
        }
      }
      PagingStopsAtFirstShortPage(rs);
      if !diverged {
        assert PagesUsed(rs) == k by {
          assert Terminates(rs) by { assert EndsPaging(rs[k - 1]); }
        }
      } else {
        assert !Terminates(rs);
        assert rs[..k] == rs;
      }
      comms := userCommunities;
    }

    /** Resolves a community reference to its id on this site: the id on
        success, `None` on any failure; it never raises. */
    method ResolveCommunity(community: Item) returns (id: Option<int>)
      modifies this
      ensures id == ResolvedId(Head(old(replies)))
      ensures replies == Tail(old(replies)) && sent == old(sent) + [ResolveReq(community, authToken)]
      ensures authToken == old(authToken) && userCommunities == old(userCommunities)
    {
      var ok, resp := RequestIt(ResolveReq(community, authToken));
      id := if ok then resp.body.communityId else None;
    }

    /** Subscribes to each community in turn: resolve it, follow it when the
        id is truthy, and record the id when the follow reply has status 200.
        A failure for one community does not stop the others. */
    method Subscribe(communities: seq<Item>)
      modifies this
      ensures State() == AfterSubscribe(old(State()), communities)
    {
      ghost var whole := SubscribeTrace(communities, replies, authToken);
      ghost var base := userCommunities;
      ghost var sent0 := sent;
      ghost var todo := whole;
      var i := 0;
      while i < |communities|
        invariant 0 <= i <= |communities|
        invariant authToken == old(authToken)
        invariant todo == SubscribeTrace(communities[i..], replies, authToken)
        invariant userCommunities + todo.added == base + whole.added
        invariant sent + todo.sent == sent0 + whole.sent
        invariant todo.rest == whole.rest
      {
        ghost var u0, s0 := userCommunities, sent;
        ghost var step := SubscribeStep(communities[i], replies, authToken);
        ghost var later := SubscribeTrace(communities[i + 1..], step.rest, authToken);
        assert todo == Trace(step.added + later.added, step.sent + later.sent, later.rest) by {
          assert communities[i..][0] == communities[i] && communities[i..][1..] == communities[i + 1..];
        }
        var commId := ResolveCommunity(communities[i]);
        if commId.Some? && commId.value != 0 {
          var ok, resp := RequestIt(FollowReq(commId.value, true, authToken));
          if ok && resp.status == 200 {
            userCommunities := userCommunities + {Id(commId.value)};
          }
        }
        assert userCommunities == u0 + step.added && sent == s0 + step.sent;
        AppendAssoc(s0, step.sent, later.sent);
        todo := later;
        i := i + 1;
      }
      assert communities[i..] == [];
    }
  }
}
