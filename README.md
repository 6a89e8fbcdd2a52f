# lemmy_migrate in Dafny

lemmy_migrate copies community subscriptions between accounts on Lemmy
sites. A client logs in to each account. It lists the account's subscribed
communities page by page, 50 to a page. It subscribes the destination
account to every community of the source account that the destination
lacks. The main account can instead be exported to a JSON backup. A backup
can stand in for the live source when syncing.

The model has four modules.

- `Api` (`api.dfy`) is the site as the client sees it. A reply is either no
  response or a status plus a body. The body is reduced to the fields the
  client reads: `jwt`, the `communities` list, and the resolved community
  id. `Raises` is the rule of the request wrapper: no response, or a
  status from 400 to 599.
- `ClientSpec` (`client_spec.dfy`) says what each client operation does, as
  functions on a `Client` value: `Fetch` for listing and `AfterSubscribe`
  for subscribing. Its lemmas state the paging and subscribing properties.
- `LemmyClient` (`lemmy.dfy`) is the client class `Lemmy`. It has the
  token, the community set, the replies its site has yet to give, and a
  ghost log of the requests sent. Each method is proved against the
  `ClientSpec` function it implements.
- `Migrate` (`migrate.dfy`) holds the set difference, the backup codec, one
  sync, and the run over all configured accounts.

Each client receives its site's replies as a sequence, one reply per
request. Once the sequence is used up, every further request gets no
response. A listing that never meets a page of other than 50 items never
returns in the program. The model reports that case as `diverged`.

The model follows what the code does on four points a reader might expect
to go otherwise:

- `subscribe` adds the numeric community id to the same set that holds
  actor_id URLs (lemmy.py:81). The set therefore holds both kinds, as the
  `Item` datatype records.
- A failed login calls `sys.exit`, which raises `SystemExit`. The `except
  Exception` around a secondary login (lemmy_migrate.py:127-134) does not
  catch it. So a failed secondary login ends the whole run. The skip to the
  next account (lemmy_migrate.py:128-134) happens only for an ordinary
  exception, such as a section without a `user` key.
- A page request that raises, or whose reply lacks `communities`, changes
  neither the page counter nor `fetched`. The same page is asked for again;
  it is not counted as an empty page.
- The wrapper raises only for 4xx and 5xx statuses, the rule of
  `raise_for_status`. It does not raise for every status outside 2xx.

## Model

| member | source | states |
|---|---|---|
| LemmyClient.Lemmy.constructor | lemmy.py:12-19 | a new client has no auth token and an empty community set; it keeps the site URL |
| LemmyClient.Lemmy.RequestIt | lemmy.py:123-134 | a request takes the next reply and raises exactly when there is no response or the status is 4xx/5xx; the token and the community set do not change |
| LemmyClient.Lemmy.Login | lemmy.py:21-35 | the client exits exactly when the login reply raises or lacks `jwt`; on success the token becomes the reply's `jwt`; on failure the token is unchanged; the community set is untouched |
| LemmyClient.Lemmy.GetCommunities | lemmy.py:37-58 | the client's new state is `Fetch` of the old one: the replies up to the first page of other than 50 items are used, one page request goes out per reply, and their actor_ids are added to the set; the result is the client's own set, a superset of the set before; `diverged` exactly when no page ends the listing |
| LemmyClient.Lemmy.ResolveCommunity | lemmy.py:86-101 | the id is the reply's community id when the request does not raise, and `None` otherwise; it never raises |
| LemmyClient.Lemmy.Subscribe | lemmy.py:60-84 | the client's new state is `AfterSubscribe` of the old one: each reference in turn is resolved, followed when its id is truthy, and its id recorded when the follow reply has status 200 |
| ClientSpec.PagingStopsAtFirstShortPage | lemmy.py:42-50 | a listing consumes the replies up to and including the first page of other than 50 items, and all replies when there is none |
| ClientSpec.PageNumbering | lemmy.py:39-50 | one request per consumed reply; the request for reply i asks for type `typ`, the token, limit 50, and page 1 plus the number of earlier replies whose `communities` were read |
| ClientSpec.PageAdvance | lemmy.py:39-50 | the first request asks for page 1; the page goes up by one after a reply whose `communities` were read and stays the same otherwise |
| ClientSpec.FailedPageIsRetried | lemmy.py:43-56 | a failed first page changes nothing but one extra request for page 1: the community set and the rest of the listing are the same as without it |
| ClientSpec.ActorIdsOfWellFormedPage | lemmy.py:52-54 | a page whose entries all have an actor_id adds exactly those actor_ids |
| ClientSpec.ThreePagesExample | lemmy.py:37-58 | pages of 50, 50 and 30 items take exactly three requests, for pages 1, 2 and 3, and add the actor_ids of all three |
| ClientSpec.EmptyFirstPageExample | lemmy.py:37-58 | an empty first page ends the listing after one request and adds nothing |
| ClientSpec.SubscribeResolvesEveryUrl | lemmy.py:66-84 | every reference of the batch is resolved, in input order, whatever happens to the others |
| ClientSpec.SubscribeRecordsFollowedIds | lemmy.py:80-81 | only ids are added, never URLs; each is non-zero and had a follow request sent for it |
| ClientSpec.FollowOnlyAfterTruthyResolve | lemmy.py:69-78 | a follow request is sent only right after a resolve request, for a non-zero id, with `follow` set |
| ClientSpec.SubscribePairsRequestsWithReplies | lemmy.py:66-84 | pairing each request with the reply it consumes: the follow requests go, in order, to exactly the truthy ids the resolve replies gave; the ids recorded are exactly those of the follows whose reply has status 200 without raising; one reply is used per request |
| ClientSpec.FollowStatusExample | lemmy.py:80-81 | a follow reply of status 200 records the id; a non-raising reply of status 204 does not |
| ClientSpec.ResolutionFailureExample | lemmy.py:66-101 | when the second of three references fails to resolve, all three are resolved and exactly the first and third are followed |
| Migrate.NewCommunities | lemmy_migrate.py:64 | the result holds exactly the source elements that the destination lacks, in the source's order, without repeats when the source has none |
| Migrate.Enumerate | lemmy_migrate.py:64 | iterating a set yields each element exactly once, in an unspecified order |
| Migrate.ReadBackup | lemmy_migrate.py:87 | reading a backup collects every community listed under any key, ignoring the keys |
| Migrate.BackupOf | lemmy_migrate.py:75 | the backup written for a site has that site as its only key, mapped to the listed communities |
| Migrate.BackupRoundTrip | lemmy_migrate.py:75-87 | reading back the single-key backup written for a site yields exactly the communities written |
| Migrate.ReadBackupUnion | lemmy_migrate.py:87 | reading a backup is a union over its keys: the list under one key adds exactly its own communities to those under the others |
| Migrate.WriteBackup | lemmy_migrate.py:71-79 | the account's subscriptions are listed; the backup has the account's site as its only key, and reading it back yields the account's community set |
| Migrate.UsesBackup | lemmy_migrate.py:51 | a backup takes the place of the live source only when it is present and non-empty, Python's truthiness of a set |
| Migrate.Sync | lemmy_migrate.py:46-68 | one sync on client values, given the order of its deficit: the source side (no request when a non-empty backup stands in), the destination's live listing, then a subscription only when the deficit is non-empty |
| Migrate.SyncSubscribesToTheDeficit | lemmy_migrate.py:46-68 | a sync that ends asks the destination, after its listing, to resolve exactly the deficit in order, and keeps every community listed; a non-empty backup leaves the source untouched |
| Migrate.SyncSubscriptions | lemmy_migrate.py:46-68 | both clients end in the states `Sync` gives for the deficit returned; when no listing diverges, the deficit lists once each exactly the source's communities (backup or live listing) that the destination's live listing lacks |
| Migrate.FirstFailedLogin | lemmy_migrate.py:124-134 | the position of the first account whose login reply fails: every login before it succeeds |
| Migrate.FindMain | lemmy_migrate.py:101-102 | the configuration labelled "Main Account" when there is one, and otherwise none: no account carries that label |
| Migrate.Secondaries | lemmy_migrate.py:111 | removing the main account leaves every other account and nothing else |
| Migrate.SecondariesKeepOrder | lemmy_migrate.py:111-124 | the other accounts keep their configuration order |
| Migrate.SecondariesCount | lemmy_migrate.py:111 | with distinct labels, exactly one account is removed when the main account is configured, and none otherwise |
| Migrate.SyncOne | lemmy_migrate.py:125-144 | a secondary login exits exactly when its reply fails, leaving the main account as it was; otherwise both clients end in their sides of `Sync` between the main account and a freshly logged-in client, the main one as destination with `-u` and as source without it, so without `-u` the new client is the one listed and subscribed; the event records the labels, the backup and a correct deficit |
| Migrate.SyncWithEach | lemmy_migrate.py:124-144 | the accounts are synced in order, each from the main account's state the earlier syncs left, until the first failed login (exit) or the first listing that never ends; the main account ends in the state the recorded syncs give, and each other account's client in its side of its own sync |
| Migrate.Run | lemmy_migrate.py:96-144 | a missing main account crashes; a failed main login exits with status 1; `-e` lists the logged-in main account, leaves it in the listed state and exports exactly that community set under its site, before any sync; a backup is read only with `-i` and without `-u`, and an unreadable one exits with status 1; otherwise the run is the loop over the other accounts from the logged-in main account, with that backup, and states the end state of the main client and of every other client |
| Migrate.SecondariesResolveTheirDeficits | lemmy_migrate.py:136-144 | without `-u`, every other account whose sync ends has its client, after its own listing, ask to resolve exactly the deficit its event records, in order, and keep every community it listed |
| Migrate.ImportRequested | lemmy_migrate.py:119-121 | a backup is read only when `-i` names a file and `-u` is not given |

## Left out

- The HTTP transport and the one-second sleep before each request are not
  modelled; the site is a sequence of replies per client.
- URL normalisation in the `Lemmy` constructor is not modelled; the site URL
  is an opaque string.
- `get_comments` is not part of this model: the sync never calls it.
- Argument parsing, reading the configuration file, logging and all printed
  output are not modelled. The configuration is given as a sequence of
  accounts with distinct labels, each with its site, user and password.
  Sections without these keys are not modelled: a missing `site` crashes the
  program, and a secondary section without `user` or `password` raises a
  `KeyError` inside the `try` at lemmy_migrate.py:127-134 and is skipped.
- Opening, writing and parsing the JSON backup file are not modelled. A
  backup is given as a map from site URL to a list of communities, or as
  `None` when the file cannot be read or parsed. A file whose top level is
  not an object, or whose values are not lists, is outside the model. For a
  string value Python would add its characters, and for an object value its
  keys, without exiting; neither case is modelled. A failure to
  write the export file is only logged by the program; the model returns
  the data that would be written.
- JSON decoding is abstracted: a reply's body arrives as the fields the
  client reads, each possibly missing. A field of the wrong type is not
  modelled.
- A listing that never ends is reported as `diverged` rather than as a run
  that never returns.
- Migrate.SyncSubscriptions: requires two distinct client objects; the run
  always passes a fresh client and the main one.
- Migrate.SyncSubscriptions: does not say in which order it lists the source
  set, since Python's set order is unspecified; the deficit it returns fixes
  the order used, and `NewCommunities` states that the deficit keeps the
  order of the enumeration.
- ClientSpec.FailedPageIsRetried: is stated for a failed reply at the front
  of a listing; a failure later in the listing is covered by `PageAdvance`.
