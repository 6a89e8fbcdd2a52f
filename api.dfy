/** The platform's HTTP API as the client sees it through its request wrapper:
    the requests it sends, the replies it gets back, and the rule that decides
    whether a reply raises. Transport, rate limiting and JSON decoding are not
    modelled; a reply's body is given already projected on the fields the
    client reads. */
module Api {

  datatype Option<+T> = None | Some(value: T)

  /** An element of a client's community set: an actor_id URL read from a
      community list, or a numeric community id recorded after a follow. */
  datatype Item = Url(actorId: string) | Id(id: int)

  /** The JSON body of a reply, reduced to the fields the client indexes.
      `None` means the field is missing (or the body is not JSON), so that
      indexing it raises. An entry of `communities` is `None` when that entry
      has no `community.actor_id`. */
  datatype Body = Body(
    jwt: Option<string>,
    communities: Option<seq<Option<string>>>,
    communityId: Option<int>)

  /** What one request yields: no response at all (DNS, refused connection,
      timeout) or an HTTP response. */
  datatype Reply = NoResponse | Response(status: int, body: Body)

  /** The requests the client sends, with their payloads. */
  datatype Request =
    | LoginReq(usernameOrEmail: string, password: string)
    | ListReq(typ: string, auth: Option<string>, limit: int, page: int)
    | ResolveReq(q: Item, auth: Option<string>)
    | FollowReq(communityId: int, follow: bool, auth: Option<string>)

  /** The page size the client asks for when listing communities. */
  const PageLimit: int := 50

  /** The request wrapper raises when there is no response or when the status
      is a client or server error (4xx or 5xx). */
  predicate Raises(r: Reply) {
    r.NoResponse? || 400 <= r.status < 600
  }

  /** The reply to the next request: once the scripted replies are used up,
      the site is unreachable. */
  function Head(rs: seq<Reply>): Reply {
    if rs == [] then NoResponse else rs[0]
  }

  /** The replies left after the next request. */
  function Tail(rs: seq<Reply>): seq<Reply> {
    if rs == [] then [] else rs[1..]
  }
}
