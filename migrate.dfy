/** The sync engine and the driver: which communities the destination lacks,
    the backup file's content, one source-to-destination sync, and the run
    over all configured accounts. */
module Migrate {
  import opened Api
  import opened ClientSpec
  import opened LemmyClient

  // ---------------------------------------------------------------------
  // The deficit
  // ---------------------------------------------------------------------

  predicate Distinct<T(==)>(xs: seq<T>) {
    forall i, j :: 0 <= i < j < |xs| ==> xs[i] != xs[j]
  }

  /** `a` is `b` with some elements left out, the rest kept in order. */
  predicate SubsequenceOf<T(==)>(a: seq<T>, b: seq<T>)
    decreases |b|
  {
    a == [] || (b != [] && if a[0] == b[0] then SubsequenceOf(a[1..], b[1..]) else SubsequenceOf(a, b[1..]))
  }

  /** The communities of the source enumeration `src` that the destination
      set `dest` lacks, in the source's order. */
  function NewCommunities(src: seq<Item>, dest: set<Item>): (r: seq<Item>)
    ensures forall x :: x in r <==> x in src && x !in dest
    ensures SubsequenceOf(r, src)
    ensures Distinct(src) ==> Distinct(r)
  {
    if src == [] then []
    else if src[0] in dest then NewCommunities(src[1..], dest)
    else [src[0]] + NewCommunities(src[1..], dest)
  }

  /** Iterating a set: every element exactly once, in an order that is not
      specified. */
  method Enumerate(s: set<Item>) returns (xs: seq<Item>)
    ensures Distinct(xs) && |xs| == |s|
    ensures forall x :: x in xs <==> x in s
  {
    xs := [];
    var rest := s;
    while rest != {}
      invariant rest <= s
      invariant forall x :: x in xs <==> x in s && x !in rest
      invariant Distinct(xs) && |xs| + |rest| == |s|
      decreases |rest|
    {
      var x :| x in rest;
      xs := xs + [x];
      rest := rest - {x};
    }
  }

  // ---------------------------------------------------------------------
  // The backup file
  // ---------------------------------------------------------------------

  /** A backup file's content: a site URL mapped to a list of communities. */
  type Backup = map<string, seq<Item>>

  /** Reading a backup: every community listed under any key; the keys
      themselves are ignored. */
  function ReadBackup(data: Backup): set<Item> {
    set k, c | k in data && c in data[k] :: c
  }

  /** The backup written for one site: a single key. */
  function BackupOf(site: string, comms: seq<Item>): Backup {
    map[site := comms]
  }

  /** Reading back the backup of one site yields the communities written. */
  lemma BackupRoundTrip(site: string, comms: seq<Item>)
    ensures ReadBackup(BackupOf(site, comms)) == set c | c in comms
  {
    var data := BackupOf(site, comms);
    forall c | c in comms ensures c in ReadBackup(data) {
      assert site in data && c in data[site];
    }
    forall c | c in ReadBackup(data) ensures c in comms {
      var k :| k in data && c in data[k];
      assert k == site;
    }
  }

  /** Reading a backup is a union over its keys: the list under one key adds
      exactly its own communities to those under the other keys. */
  lemma ReadBackupUnion(data: Backup, k: string, v: seq<Item>)
    ensures ReadBackup(data[k := v]) == ReadBackup(data - {k}) + set c | c in v
  {
    var whole := data[k := v];
    forall c | c in v ensures c in ReadBackup(whole) {
      assert k in whole && c in whole[k];
    }
    forall c | c in ReadBackup(data - {k}) ensures c in ReadBackup(whole) {
      var k' :| k' in data - {k} && c in (data - {k})[k'];
      assert k' in whole && c in whole[k'];
    }
    forall c | c in ReadBackup(whole) ensures c in ReadBackup(data - {k}) || c in v {
      var k' :| k' in whole && c in whole[k'];
      if k' != k {
        assert k' in data - {k} && c in (data - {k})[k'];
      }
    }
  }

  /** Exports an account's subscriptions: lists them, then builds the single
      key backup for the account's site. Reading the result back gives the
      account's community set. */
  method WriteBackup(account: Lemmy) returns (diverged: bool, data: Backup)
    modifies account
    ensures account.State() == Fetch(old(account.State()), SubscribedType).after
    ensures diverged == Fetch(old(account.State()), SubscribedType).diverged
    ensures !diverged ==> data.Keys == {account.siteUrl} && ReadBackup(data) == account.userCommunities
  {
    var comms;
    comms, diverged := account.GetCommunities(SubscribedType);
    data := map[];
    if !diverged {
      var xs := Enumerate(comms);
      data := BackupOf(account.siteUrl, xs);
      BackupRoundTrip(account.siteUrl, xs);
    }
  }

  // ---------------------------------------------------------------------
  // One sync
  // ---------------------------------------------------------------------

  /** A backup takes the place of the live source only when it holds
      something. */
  predicate UsesBackup(fromBackup: Option<set<Item>>) {
    fromBackup.Some? && fromBackup.value != {}
  }

  /** What one sync does to the source and destination clients. */
  datatype SyncResult = SyncResult(src: Client, dest: Client, diverged: bool)

  /** The source side of a sync: no request at all when a non-empty backup
      stands in, the source's live listing otherwise. */
  function SourceListing(src: Client, backup: Option<set<Item>>): FetchResult {
    if UsesBackup(backup) then FetchResult(src, false) else Fetch(src, SubscribedType)
  }

  /** The communities a sync takes from the source side. */
  function SourceSet(src: Client, backup: Option<set<Item>>): set<Item> {
    if UsesBackup(backup) then backup.value else Fetch(src, SubscribedType).after.communities
  }

  /** `deficit` lists, once each, exactly the source's communities that the
      destination's live listing lacks. */
  ghost predicate IsDeficit(deficit: seq<Item>, src: Client, dest: Client, backup: Option<set<Item>>) {
    Distinct(deficit) &&
    forall x :: x in deficit <==>
      x in SourceSet(src, backup) && x !in Fetch(dest, SubscribedType).after.communities
  }

  /** One sync, given the order `deficit` in which it lists the missing
      communities: the source side, then the destination's live listing,
      then a subscription to the deficit when it is non-empty. A listing that
      never ends stops the sync there (`diverged`). */
  function Sync(src: Client, dest: Client, backup: Option<set<Item>>, deficit: seq<Item>): SyncResult {
    var s := SourceListing(src, backup);
    if s.diverged then SyncResult(s.after, dest, true)
    else
      var d := Fetch(dest, SubscribedType);
      if d.diverged then SyncResult(s.after, d.after, true)
      else SyncResult(s.after, if deficit == [] then d.after else AfterSubscribe(d.after, deficit), false)
  }

  /** A sync that ends asks the destination, after its listing, to resolve
      exactly the deficit, in order, and loses none of the communities listed;
      a non-empty backup leaves the source client untouched. */
  lemma {:induction false} SyncSubscribesToTheDeficit(src: Client, dest: Client, backup: Option<set<Item>>, deficit: seq<Item>)
    ensures UsesBackup(backup) ==> Sync(src, dest, backup, deficit).src == src
    ensures var r := Sync(src, dest, backup, deficit);
      var listed := Fetch(dest, SubscribedType).after;
      !r.diverged ==>
        |listed.sent| <= |r.dest.sent| && r.dest.sent[..|listed.sent|] == listed.sent &&
        ResolveTargets(r.dest.sent[|listed.sent|..]) == deficit &&
        listed.communities <= r.dest.communities
  {
    var r := Sync(src, dest, backup, deficit);
    var listed := Fetch(dest, SubscribedType).after;
    if !r.diverged {
      if deficit == [] {
        assert r.dest.sent[|listed.sent|..] == [];
      } else {
        var t := SubscribeTrace(deficit, listed.replies, listed.token);
        assert r.dest.sent == listed.sent + t.sent;
        assert r.dest.sent[|listed.sent|..] == t.sent;
        SubscribeResolvesEveryUrl(deficit, listed.replies, listed.token);
      }
    }
  }

  /** Subscribes `dest` to the communities of the source that it lacks. The
      source set is the backup when that is non-empty and `src`'s live list
      otherwise; the destination is always listed live. `dest` is asked to
      subscribe only when the deficit is non-empty. `diverged` means one of
      the listings never ends. */
  method SyncSubscriptions(src: Lemmy, dest: Lemmy, fromBackup: Option<set<Item>>)
    returns (diverged: bool, newCommunities: seq<Item>)
    requires src != dest
    modifies src, dest
    ensures var r := Sync(old(src.State()), old(dest.State()), fromBackup, newCommunities);
      src.State() == r.src && dest.State() == r.dest && diverged == r.diverged
    ensures diverged ==> newCommunities == []
    ensures !diverged ==> IsDeficit(newCommunities, old(src.State()), old(dest.State()), fromBackup)
  {
    newCommunities := [];
    var srcComms: set<Item>;
    if UsesBackup(fromBackup) {
      srcComms := fromBackup.value;
    } else {
      srcComms, diverged := src.GetCommunities(SubscribedType);
      if diverged {
        return;
      }
    }
    var destComms;
    destComms, diverged := dest.GetCommunities(SubscribedType);
    if diverged {
      return;
    }
    var order := Enumerate(srcComms);
    newCommunities := NewCommunities(order, destComms);
    if newCommunities != [] {
      dest.Subscribe(newCommunities);
    }
  }

  // ---------------------------------------------------------------------
  // The run over all accounts
  // ---------------------------------------------------------------------

  /** The label of the account the others are synced with. */
  const MainAccount: string := "Main Account"

  /** One configured account, with the replies its site will give. */
  datatype AccountConfig = AccountConfig(
    name: string, site: string, user: string, password: string, replies: seq<Reply>)

  /** The command line: `-u`, `-e <file>` and `-i <file>`. */
  datatype Flags = Flags(update: bool, exportFile: Option<string>, importFile: Option<string>)

  /** How a run ends: normally, through `sys.exit`, through an uncaught
      exception, or never (a listing that does not end). */
  datatype Outcome = Finished | Exited(code: int) | Crashed | Diverged

  /** What a run did: exported a backup, or synced one pair of accounts. */
  datatype Event =
    | Exported(data: Backup)
    | Synced(srcLabel: string, destLabel: string, backup: Option<set<Item>>, newCommunities: seq<Item>)

  /** An optional command-line value that Python treats as true. */
  predicate Given(arg: Option<string>) {
    arg.Some? && arg.value != ""
  }

  /** The backup is read only with `-i` and without `-u`. */
  predicate ImportRequested(flags: Flags) {
    Given(flags.importFile) && !flags.update
  }

  /** The set every sync of the run takes as its backup. */
  function BackupFor(flags: Flags, file: Option<Backup>): Option<set<Item>> {
    if ImportRequested(flags) && file.Some? then Some(ReadBackup(file.value)) else None
  }

  predicate DistinctLabels(accounts: seq<AccountConfig>) {
    forall i, j :: 0 <= i < j < |accounts| ==> accounts[i].name != accounts[j].name
  }

  /** The main account's configuration, if there is one. */
  function FindMain(accounts: seq<AccountConfig>): (r: Option<AccountConfig>)
    ensures r.Some? ==> r.value in accounts && r.value.name == MainAccount
    ensures r.None? ==> forall a :: a in accounts ==> a.name != MainAccount
  {
    if accounts == [] then None
    else if accounts[0].name == MainAccount then Some(accounts[0])
    else FindMain(accounts[1..])
  }

  /** The accounts left once the main one is removed, in configuration order. */
  function Secondaries(accounts: seq<AccountConfig>): (r: seq<AccountConfig>)
    ensures forall a :: a in r <==> a in accounts && a.name != MainAccount
  {
    if accounts == [] then []
    else (if accounts[0].name == MainAccount then [] else [accounts[0]]) + Secondaries(accounts[1..])
  }

  /** The position of the first account whose login fails, or the number of
      accounts when every login succeeds. */
  function FirstFailedLogin(accounts: seq<AccountConfig>): (k: nat)
    ensures k <= |accounts|
    ensures forall i :: 0 <= i < k ==> LoginOk(Head(accounts[i].replies))
    ensures k < |accounts| ==> !LoginOk(Head(accounts[k].replies))
  {
    if accounts == [] || !LoginOk(Head(accounts[0].replies)) then 0
    else 1 + FirstFailedLogin(accounts[1..])
  }

  /** Removing the main account keeps the others in configuration order. */
  lemma {:induction false} SecondariesKeepOrder(accounts: seq<AccountConfig>)
    ensures SubsequenceOf(Secondaries(accounts), accounts)
  {
    if accounts != [] {
      var rest := Secondaries(accounts[1..]);
      SecondariesKeepOrder(accounts[1..]);
      if accounts[0].name == MainAccount {
        assert Secondaries(accounts) == rest;
        if rest != [] {
          assert rest[0] in rest && rest[0] != accounts[0];
        }
      } else {
        assert ([accounts[0]] + rest)[1..] == rest;
      }
    }
  }

  /** With distinct labels, exactly one account is removed when the main
      account is configured, and none otherwise. */
  lemma {:induction false} SecondariesCount(accounts: seq<AccountConfig>)
    requires DistinctLabels(accounts)
    ensures FindMain(accounts).Some? ==> |Secondaries(accounts)| == |accounts| - 1
    ensures FindMain(accounts).None? ==> Secondaries(accounts) == accounts
  {
    if accounts != [] {
      assert DistinctLabels(accounts[1..]) by {
        forall i, j | 0 <= i < j < |accounts| - 1
          ensures accounts[1..][i].name != accounts[1..][j].name
        {
          assert accounts[1..][i] == accounts[i + 1] && accounts[1..][j] == accounts[j + 1];
        }
      }
      SecondariesCount(accounts[1..]);
    }
  }

  /** `e` records the sync of the main account with `acc`, in the direction
      `update` selects, against `backup`. */
  predicate SyncedWith(e: Event, update: bool, acc: AccountConfig, backup: Option<set<Item>>) {
    e.Synced? &&
    e.srcLabel == (if update then acc.name else MainAccount) &&
    e.destLabel == (if update then MainAccount else acc.name) &&
    e.backup == backup
  }

  /** A new client for `acc`'s site right after logging in: the token from
      the login reply when that succeeds, an empty community set, one reply
      used and the login request sent. */
  function LoggedIn(acc: AccountConfig): Client {
    var r := Head(acc.replies);
    Client(if LoginOk(r) then r.body.jwt else None, {}, Tail(acc.replies), [LoginReq(acc.user, acc.password)])
  }

  /** The sync of the main account, in state `main`, with a freshly logged
      in client for `acc`: with `update` the other account is the source and
      the main one the destination, otherwise the other way round. */
  function SyncWithMain(main: Client, acc: AccountConfig, update: bool, backup: Option<set<Item>>, deficit: seq<Item>): SyncResult {
    if update then Sync(LoggedIn(acc), main, backup, deficit) else Sync(main, LoggedIn(acc), backup, deficit)
  }

  /** The main account's side of a sync. */
  function MainSide(r: SyncResult, update: bool): Client {
    if update then r.dest else r.src
  }

  /** The other account's side of a sync. */
  function OtherSide(r: SyncResult, update: bool): Client {
    if update then r.src else r.dest
  }

  function DeficitOf(e: Event): seq<Item> {
    if e.Synced? then e.newCommunities else []
  }

  /** `e` records a sync of the main account, in state `main`, with `acc`:
      its labels and backup, and its deficit, which is empty when a listing
      never ends. */
  ghost predicate SyncedFrom(main: Client, e: Event, acc: AccountConfig, update: bool, backup: Option<set<Item>>) {
    SyncedWith(e, update, acc, backup) &&
    if SyncWithMain(main, acc, update, backup, e.newCommunities).diverged then e.newCommunities == []
    else if update then IsDeficit(e.newCommunities, LoggedIn(acc), main, backup)
    else IsDeficit(e.newCommunities, main, LoggedIn(acc), backup)
  }

  /** The main account's state after the syncs `trace` records with the
      first accounts of `secs`, starting from `main`. */
  function MainAfter(main: Client, secs: seq<AccountConfig>, update: bool, backup: Option<set<Item>>, trace: seq<Event>): Client
    requires |trace| <= |secs|
    decreases |trace|
  {
    if trace == [] then main
    else
      var k := |trace| - 1;
      var before := MainAfter(main, secs, update, backup, trace[..k]);
      MainSide(SyncWithMain(before, secs[k], update, backup, DeficitOf(trace[k])), update)
  }

  /** The sync that `trace[i]` records never ends. */
  predicate DivergesAt(main: Client, secs: seq<AccountConfig>, update: bool, backup: Option<set<Item>>, trace: seq<Event>, i: nat)
    requires i < |trace| <= |secs|
  {
    var before := MainAfter(main, secs, update, backup, trace[..i]);
    SyncWithMain(before, secs[i], update, backup, DeficitOf(trace[i])).diverged
  }

  /** Every event of `trace` records a sync of the main account with the
      matching account of `secs`, from the state the earlier syncs left. */
  ghost predicate SyncedPrefix(main: Client, secs: seq<AccountConfig>, update: bool, backup: Option<set<Item>>,
                               trace: seq<Event>)
    requires |trace| <= |secs|
  {
    forall i :: 0 <= i < |trace| ==>
      SyncedFrom(MainAfter(main, secs, update, backup, trace[..i]), trace[i], secs[i], update, backup)
  }

  /** None of the first `n` syncs of `trace` fails to end. */
  ghost predicate EndsBefore(main: Client, secs: seq<AccountConfig>, update: bool, backup: Option<set<Item>>,
                             trace: seq<Event>, n: nat)
    requires n <= |trace| <= |secs|
  {
    forall i :: 0 <= i < n ==> !DivergesAt(main, secs, update, backup, trace, i)
  }

  /** `trace` and `outcome` are what syncing the main account, from state
      `main`, with each account of `secs` in turn produces: one sync per
      account up to the first failed login, which exits, or up to the first
      sync that never ends. */
  ghost predicate SyncRun(main: Client, secs: seq<AccountConfig>, update: bool, backup: Option<set<Item>>,
                          trace: seq<Event>, outcome: Outcome) {
    |trace| <= FirstFailedLogin(secs) &&
    SyncedPrefix(main, secs, update, backup, trace) &&
    (outcome == Diverged ==>
      0 < |trace| && EndsBefore(main, secs, update, backup, trace, |trace| - 1) &&
      DivergesAt(main, secs, update, backup, trace, |trace| - 1)) &&
    (outcome != Diverged ==> EndsBefore(main, secs, update, backup, trace, |trace|)) &&
    (outcome == Finished || outcome == Diverged || outcome == Exited(1)) &&
    (outcome != Diverged ==> |trace| == FirstFailedLogin(secs)) &&
    (outcome == Finished ==> |trace| == |secs|) &&
    (outcome == Exited(1) ==> |trace| < |secs|)
  }

  /** `others[i]` is the state in which the sync that `trace[i]` records
      leaves the client for `secs[i]`. */
  predicate OthersSynced(main: Client, secs: seq<AccountConfig>, update: bool, backup: Option<set<Item>>,
                         trace: seq<Event>, others: seq<Client>)
    requires |trace| <= |secs|
  {
    |others| == |trace| &&
    forall i :: 0 <= i < |trace| ==>
      others[i] == OtherSide(SyncWithMain(MainAfter(main, secs, update, backup, trace[..i]), secs[i], update, backup,
                                          DeficitOf(trace[i])), update)
  }

  /** Without `-u` each other account is the destination: after its own
      listing, its client asks to resolve exactly the deficit its event
      records, in order, and keeps every community it listed. */
  lemma {:induction false} SecondariesResolveTheirDeficits(main: Client, secs: seq<AccountConfig>,
                                                           backup: Option<set<Item>>, trace: seq<Event>,
                                                           others: seq<Client>)
    requires |trace| <= |secs|
    requires OthersSynced(main, secs, false, backup, trace, others)
    ensures forall i :: 0 <= i < |trace| && !DivergesAt(main, secs, false, backup, trace, i) ==>
      var listed := Fetch(LoggedIn(secs[i]), SubscribedType).after;
      |listed.sent| <= |others[i].sent| && others[i].sent[..|listed.sent|] == listed.sent &&
      ResolveTargets(others[i].sent[|listed.sent|..]) == DeficitOf(trace[i]) &&
      listed.communities <= others[i].communities
  {
    forall i | 0 <= i < |trace| && !DivergesAt(main, secs, false, backup, trace, i)
      ensures var listed := Fetch(LoggedIn(secs[i]), SubscribedType).after;
        |listed.sent| <= |others[i].sent| && others[i].sent[..|listed.sent|] == listed.sent &&
        ResolveTargets(others[i].sent[|listed.sent|..]) == DeficitOf(trace[i]) &&
        listed.communities <= others[i].communities
    {
      var before := MainAfter(main, secs, false, backup, trace[..i]);
      SyncSubscribesToTheDeficit(before, LoggedIn(secs[i]), backup, DeficitOf(trace[i]));
    }
  }

  /** Appending a record leaves the states before the earlier records as
      they were. */
  lemma MainAfterPrefix(main: Client, secs: seq<AccountConfig>, update: bool, backup: Option<set<Item>>,
                        trace: seq<Event>, e: Event, j: nat)
    requires j <= |trace| < |secs|
    ensures MainAfter(main, secs, update, backup, (trace + [e])[..j]) == MainAfter(main, secs, update, backup, trace[..j])
  {
    assert (trace + [e])[..j] == trace[..j];
  }

  /** Appending the record of one more sync keeps what the earlier records
      say, provided the new one speaks of the state they leave. */
  lemma ExtendSyncedPrefix(main: Client, secs: seq<AccountConfig>, update: bool, backup: Option<set<Item>>,
                           trace: seq<Event>, e: Event)
    requires |trace| < |secs|
    requires SyncedPrefix(main, secs, update, backup, trace)
    requires SyncedFrom(MainAfter(main, secs, update, backup, trace), e, secs[|trace|], update, backup)
    ensures SyncedPrefix(main, secs, update, backup, trace + [e])
  {
    var t := trace + [e];
    var n := |trace|;
    forall j | 0 <= j <= n
      ensures SyncedFrom(MainAfter(main, secs, update, backup, t[..j]), t[j], secs[j], update, backup)
    {
      MainAfterPrefix(main, secs, update, backup, trace, e, j);
      if j < n {
        assert t[j] == trace[j];
      } else {
        assert t[..j] == trace;
      }
    }
  }

  /** Appending a record keeps the earlier syncs ending. */
  lemma ExtendEndsBefore(main: Client, secs: seq<AccountConfig>, update: bool, backup: Option<set<Item>>,
                         trace: seq<Event>, e: Event)
    requires |trace| < |secs|
    requires EndsBefore(main, secs, update, backup, trace, |trace|)
    ensures EndsBefore(main, secs, update, backup, trace + [e], |trace|)
  {
    var t := trace + [e];
    forall j | 0 <= j < |trace|
      ensures !DivergesAt(main, secs, update, backup, t, j)
    {
      MainAfterPrefix(main, secs, update, backup, trace, e, j);
      assert t[j] == trace[j];
      assert !DivergesAt(main, secs, update, backup, trace, j);
    }
  }

  /** The new record's sync starts from the state the earlier ones leave. */
  lemma ExtendMainAfter(main: Client, secs: seq<AccountConfig>, update: bool, backup: Option<set<Item>>,
                        trace: seq<Event>, e: Event)
    requires |trace| < |secs|
    ensures var r := SyncWithMain(MainAfter(main, secs, update, backup, trace), secs[|trace|], update, backup, DeficitOf(e));
      DivergesAt(main, secs, update, backup, trace + [e], |trace|) == r.diverged &&
      MainAfter(main, secs, update, backup, trace + [e]) == MainSide(r, update)
  {
    var t := trace + [e];
    assert t[..|trace|] == trace;
  }

  /** Appending the record of one more sync, with the state it leaves the
      other account in, keeps what the earlier states say. */
  lemma ExtendOthersSynced(main: Client, secs: seq<AccountConfig>, update: bool, backup: Option<set<Item>>,
                           trace: seq<Event>, others: seq<Client>, e: Event, other: Client)
    requires |trace| < |secs|
    requires OthersSynced(main, secs, update, backup, trace, others)
    requires other == OtherSide(SyncWithMain(MainAfter(main, secs, update, backup, trace), secs[|trace|], update,
                                             backup, DeficitOf(e)), update)
    ensures OthersSynced(main, secs, update, backup, trace + [e], others + [other])
  {
    var t := trace + [e];
    var n := |trace|;
    forall j | 0 <= j <= n
      ensures (others + [other])[j] ==
        OtherSide(SyncWithMain(MainAfter(main, secs, update, backup, t[..j]), secs[j], update, backup,
                               DeficitOf(t[j])), update)
    {
      MainAfterPrefix(main, secs, update, backup, trace, e, j);
      if j < n {
        assert t[j] == trace[j];
      } else {
        assert t[..j] == trace;
      }
    }
  }

  /** What is known after the syncs `trace` records, none of which failed
      to end: each record speaks of the state the earlier ones left, the
      main account is in `now` and the other clients in `others`. */
  ghost predicate SyncedSoFar(main: Client, secs: seq<AccountConfig>, update: bool, backup: Option<set<Item>>,
                              trace: seq<Event>, others: seq<Client>, now: Client)
    requires |trace| <= |secs|
  {
    SyncedPrefix(main, secs, update, backup, trace) &&
    EndsBefore(main, secs, update, backup, trace, |trace|) &&
    now == MainAfter(main, secs, update, backup, trace) &&
    OthersSynced(main, secs, update, backup, trace, others)
  }

  /** One more sync that ends, from the state `before` the earlier ones
      left, extends what is known. */
  lemma ExtendSyncedSoFar(main: Client, secs: seq<AccountConfig>, update: bool, backup: Option<set<Item>>,
                          trace: seq<Event>, others: seq<Client>, before: Client,
                          e: Event, other: Client, after: Client)
    requires |trace| < |secs|
    requires SyncedSoFar(main, secs, update, backup, trace, others, before)
    requires SyncedFrom(before, e, secs[|trace|], update, backup)
    requires var r := SyncWithMain(before, secs[|trace|], update, backup, DeficitOf(e));
      after == MainSide(r, update) && other == OtherSide(r, update) && !r.diverged
    ensures SyncedSoFar(main, secs, update, backup, trace + [e], others + [other], after)
  {
    ExtendOthersSynced(main, secs, update, backup, trace, others, e, other);
    ExtendSyncedPrefix(main, secs, update, backup, trace, e);
    ExtendEndsBefore(main, secs, update, backup, trace, e);
    ExtendMainAfter(main, secs, update, backup, trace, e);
  }

  /** One more sync that never ends, from the state `before` the earlier
      ones left, ends the run. */
  lemma DivergedSyncRun(main: Client, secs: seq<AccountConfig>, update: bool, backup: Option<set<Item>>,
                        trace: seq<Event>, others: seq<Client>, before: Client,
                        e: Event, other: Client, after: Client)
    requires |trace| < |secs|
    requires SyncedSoFar(main, secs, update, backup, trace, others, before)
    requires forall j :: 0 <= j <= |trace| ==> LoginOk(Head(secs[j].replies))
    requires SyncedFrom(before, e, secs[|trace|], update, backup)
    requires var r := SyncWithMain(before, secs[|trace|], update, backup, DeficitOf(e));
      after == MainSide(r, update) && other == OtherSide(r, update) && r.diverged
    ensures SyncRun(main, secs, update, backup, trace + [e], Diverged)
    ensures after == MainAfter(main, secs, update, backup, trace + [e])
    ensures OthersSynced(main, secs, update, backup, trace + [e], others + [other])
  {
    ExtendOthersSynced(main, secs, update, backup, trace, others, e, other);
    ExtendSyncedPrefix(main, secs, update, backup, trace, e);
    ExtendEndsBefore(main, secs, update, backup, trace, e);
    ExtendMainAfter(main, secs, update, backup, trace, e);
    DivergedLast(main, secs, update, backup, trace + [e]);
  }

  /** Syncs that each start where the one before left off, the last of
      which never ends, are a run that `SyncRun` calls diverged. */
  lemma DivergedLast(main: Client, secs: seq<AccountConfig>, update: bool, backup: Option<set<Item>>,
                     trace: seq<Event>)
    requires 0 < |trace| <= |secs|
    requires forall j :: 0 <= j < |trace| ==> LoginOk(Head(secs[j].replies))
    requires SyncedPrefix(main, secs, update, backup, trace)
    requires EndsBefore(main, secs, update, backup, trace, |trace| - 1)
    requires DivergesAt(main, secs, update, backup, trace, |trace| - 1)
    ensures SyncRun(main, secs, update, backup, trace, Diverged)
  {
  }

  /** A loop that stops at a failed login, or at the end, without a sync
      that never ends, has run the syncs `SyncRun` asks for. */
  lemma StopSyncRun(main: Client, secs: seq<AccountConfig>, update: bool, backup: Option<set<Item>>,
                    trace: seq<Event>, others: seq<Client>, now: Client, outcome: Outcome)
    requires |trace| <= |secs|
    requires SyncedSoFar(main, secs, update, backup, trace, others, now)
    requires forall j :: 0 <= j < |trace| ==> LoginOk(Head(secs[j].replies))
    requires outcome == Exited(1) ==> |trace| < |secs| && !LoginOk(Head(secs[|trace|].replies))
    requires outcome == Finished ==> |trace| == |secs|
    requires outcome == Exited(1) || outcome == Finished
    ensures SyncRun(main, secs, update, backup, trace, outcome)
    ensures now == MainAfter(main, secs, update, backup, trace)
    ensures OthersSynced(main, secs, update, backup, trace, others)
  {
    FirstFailedLoginIs(secs, |trace|);
  }

  /** The loop over the other accounts: log in to each in turn and sync it
      with the main account. A failed login exits; a listing that never ends
      stops everything. */
  method SyncWithEach(mainLemming: Lemmy, secs: seq<AccountConfig>, update: bool, commsBackup: Option<set<Item>>)
    returns (outcome: Outcome, trace: seq<Event>, ghost others: seq<Client>)
    modifies mainLemming
    ensures SyncRun(old(mainLemming.State()), secs, update, commsBackup, trace, outcome)
    ensures mainLemming.State() == MainAfter(old(mainLemming.State()), secs, update, commsBackup, trace)
    ensures OthersSynced(old(mainLemming.State()), secs, update, commsBackup, trace, others)
  {
    ghost var main0 := mainLemming.State();
    trace := [];
    others := [];
    var i := 0;
    while i < |secs|
      invariant 0 <= i <= |secs| && |trace| == i
      invariant forall j :: 0 <= j < i ==> LoginOk(Head(secs[j].replies))
      invariant SyncedSoFar(main0, secs, update, commsBackup, trace, others, mainLemming.State())
    {
      ghost var before := mainLemming.State();
      var exited, diverged, e, other := SyncOne(mainLemming, secs[i], update, commsBackup);
      if exited {
        StopSyncRun(main0, secs, update, commsBackup, trace, others, before, Exited(1));
        return Exited(1), trace, others;
      }
      if diverged {
        DivergedSyncRun(main0, secs, update, commsBackup, trace, others, before, e, other, mainLemming.State());
        return Diverged, trace + [e], others + [other];
      }
      ExtendSyncedSoFar(main0, secs, update, commsBackup, trace, others, before, e, other, mainLemming.State());
      trace, others := trace + [e], others + [other];
      i := i + 1;
    }
    StopSyncRun(main0, secs, update, commsBackup, trace, others, mainLemming.State(), Finished);
    outcome := Finished;
  }

  /** One pass of the loop over the other accounts: log in to `acc` (a
      failure exits and leaves the main account as it was) and sync it with
      the main account in the direction `update` selects. `other` is the
      state in which the sync leaves the client for `acc`. When `exited`,
      no sync took place and `e` and `other` carry no meaning. */
  method SyncOne(mainLemming: Lemmy, acc: AccountConfig, update: bool, commsBackup: Option<set<Item>>)
    returns (exited: bool, diverged: bool, e: Event, ghost other: Client)
    modifies mainLemming
    ensures exited <==> !LoginOk(Head(acc.replies))
    ensures exited ==> mainLemming.State() == old(mainLemming.State())
    ensures !exited ==> SyncedFrom(old(mainLemming.State()), e, acc, update, commsBackup)
    ensures !exited ==>
      var r := SyncWithMain(old(mainLemming.State()), acc, update, commsBackup, DeficitOf(e));
      mainLemming.State() == MainSide(r, update) && other == OtherSide(r, update) && diverged == r.diverged
  {
    var newLemming := new Lemmy(acc.site, acc.replies);
    exited := newLemming.Login(acc.user, acc.password);
    e := Exported(map[]);
    diverged := false;
    other := newLemming.State();
    if exited {
      return;
    }
    assert newLemming.State() == LoggedIn(acc);
    var newCommunities;
    if update {
      diverged, newCommunities := SyncSubscriptions(newLemming, mainLemming, commsBackup);
      e := Synced(acc.name, MainAccount, commsBackup, newCommunities);
    } else {
      diverged, newCommunities := SyncSubscriptions(mainLemming, newLemming, commsBackup);
      e := Synced(MainAccount, acc.name, commsBackup, newCommunities);
    }
    other := newLemming.State();
  }

  /** The first failed login is at `k` when every login before it succeeds
      and the one at `k` fails, or `k` is the end. */
  lemma FirstFailedLoginIs(accounts: seq<AccountConfig>, k: nat)
    requires k <= |accounts|
    requires forall i :: 0 <= i < k ==> LoginOk(Head(accounts[i].replies))
    requires k < |accounts| ==> !LoginOk(Head(accounts[k].replies))
    ensures FirstFailedLogin(accounts) == k
  {
  }

  /** The run: log in to the main account, then either export its
      subscriptions, or sync it with every other account in turn. A failed
      login, main or not, exits the process: `sys.exit` raises `SystemExit`,
      which the `except Exception` around the secondary logins does not
      catch. With `-u` each secondary account is the source and the main
      account the destination; otherwise the other way round. `mainEnd` is
      the state the main account's client ends in and `others` the states
      the syncs leave the other clients in; before the main login succeeds
      `mainEnd` carries no meaning. */
  method Run(flags: Flags, accounts: seq<AccountConfig>, backupFile: Option<Backup>)
    returns (outcome: Outcome, trace: seq<Event>, ghost mainEnd: Client, ghost others: seq<Client>)
    requires DistinctLabels(accounts)
    ensures FindMain(accounts).None? ==> outcome == Crashed && trace == [] && others == []
    ensures FindMain(accounts).Some? && !LoginOk(Head(FindMain(accounts).value.replies)) ==>
      outcome == Exited(1) && trace == [] && others == []
    ensures FindMain(accounts).Some? && LoginOk(Head(FindMain(accounts).value.replies)) &&
            Given(flags.exportFile) ==>
      var main := FindMain(accounts).value;
      var listed := Fetch(LoggedIn(main), SubscribedType);
      mainEnd == listed.after && others == [] &&
      if listed.diverged then outcome == Diverged && trace == []
      else
        outcome == Finished && |trace| == 1 && trace[0].Exported? &&
        trace[0].data.Keys == {main.site} && ReadBackup(trace[0].data) == listed.after.communities
    ensures FindMain(accounts).Some? && LoginOk(Head(FindMain(accounts).value.replies)) &&
            !Given(flags.exportFile) && ImportRequested(flags) && backupFile.None? ==>
      outcome == Exited(1) && trace == [] && mainEnd == LoggedIn(FindMain(accounts).value) && others == []
    ensures FindMain(accounts).Some? && LoginOk(Head(FindMain(accounts).value.replies)) &&
            !Given(flags.exportFile) && !(ImportRequested(flags) && backupFile.None?) ==>
      |Secondaries(accounts)| == |accounts| - 1 &&
      SyncRun(LoggedIn(FindMain(accounts).value), Secondaries(accounts), flags.update,
              BackupFor(flags, backupFile), trace, outcome) &&
      mainEnd == MainAfter(LoggedIn(FindMain(accounts).value), Secondaries(accounts), flags.update,
                           BackupFor(flags, backupFile), trace) &&
      OthersSynced(LoggedIn(FindMain(accounts).value), Secondaries(accounts), flags.update,
                   BackupFor(flags, backupFile), trace, others)
  {
    others := [];
    var main := FindMain(accounts);
    if main.None? {
      mainEnd := Client(None, {}, [], []);
      return Crashed, [], mainEnd, others;
    }
    var mainLemming := new Lemmy(main.value.site, main.value.replies);
    var exited := mainLemming.Login(main.value.user, main.value.password);
    mainEnd := mainLemming.State();
    if exited {
      return Exited(1), [], mainEnd, others;
    }
    assert mainLemming.State() == LoggedIn(main.value);

    if Given(flags.exportFile) {
      var diverged, data := WriteBackup(mainLemming);
      mainEnd := mainLemming.State();
      if diverged {
        return Diverged, [], mainEnd, others;
      }
      return Finished, [Exported(data)], mainEnd, others;
    }

    var commsBackup: Option<set<Item>> := None;
    if ImportRequested(flags) {
      if backupFile.None? {
        return Exited(1), [], mainEnd, others;
      }
      commsBackup := Some(ReadBackup(backupFile.value));
    }

    SecondariesCount(accounts);
    outcome, trace, others := SyncWithEach(mainLemming, Secondaries(accounts), flags.update, commsBackup);
    mainEnd := mainLemming.State();
  }
}
