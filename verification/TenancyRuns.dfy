/** Whose a repository's events are, over whole runs: what connecting,
    disconnecting and uninstalling (internal/api/github_app.go,
    internal/githubapp/webhook.go) do to the analyses that follow,
    and whose suppressions they heed. */
module TenancyRuns {
  import opened SqlAst
  import opened GithubStore
  import opened Webhook
  import opened WebhookRuns

  /** The installation is claimed by o, and the repository's row, if there is
      one, is under that installation and names no other tenant. */
  ghost predicate HeldBy(db: Db, installation: int, repo: int, o: Option<Tenant>) {
    (o.Some? ==> installation in db.installations)
    && (installation in db.installations ==> db.installations[installation].customer == o)
    && (repo in db.repos ==> RowHeldBy(db.repos[repo], installation, o))
  }

  ghost predicate RowHeldBy(row: Repo, installation: int, o: Option<Tenant>) {
    row.installation == installation && (row.customer.None? || row.customer == o)
  }

  lemma HeldIsTenant(db: Db, installation: int, repo: int, o: Option<Tenant>)
    requires HeldBy(db, installation, repo, o)
    ensures TenantOf(db, installation, repo) == o
  {
  }

  ghost predicate Names(repos: seq<RepoRef>, repo: int) {
    exists i :: 0 <= i < |repos| && repos[i].id == repo
  }

  /** The event files the repository under another installation. */
  ghost predicate Moves(e: Event, installation: int, repo: int) {
    match e
    case Repository(_, r, id) => r.id == repo && id != installation
    case InstallationRepos(id, added, _) => id != installation && Names(added, repo)
    case InstallationChange(_, id, _, _, repositories) => id != installation && Names(repositories, repo)
    case _ => false
  }

  /** The actions that can end a holding: another claim, an uninstall of a
      claimed installation, a move of the repository. */
  ghost predicate Disturbs(a: Action, installation: int, repo: int, o: Option<Tenant>) {
    match a
    case Claim(id, customer) => id == installation && Some(customer) != o
    case Connect(_, _, _) => false
    case Deliver(d) =>
      Moves(d.event, installation, repo)
      || (o.Some? && d.event.InstallationChange? && d.event.action == "deleted" && d.event.id == installation)
  }

  lemma {:induction false} WithReposHold(db: Db, repos: seq<RepoRef>, id: int, faults: set<Stmt>,
                                         installation: int, repo: int, o: Option<Tenant>)
    requires HeldBy(db, installation, repo, o) && (id != installation ==> !Names(repos, repo))
    ensures HeldBy(WithRepos(db, repos, id, faults).db, installation, repo, o)
    decreases |repos|
  {
    if |repos| > 0 && RepoUpsert(repos[0].id) !in faults && id in db.installations {
      var next := WithRepo(db, repos[0], id);
      assert Names(repos[1..], repo) ==> Names(repos, repo) by {
        if i :| 0 <= i < |repos[1..]| && repos[1..][i].id == repo {
          assert repos[i + 1].id == repo;
        }
      }
      assert repos[0].id == repo ==> id == installation;
      WithReposHold(next, repos[1..], id, faults, installation, repo, o);
    }
  }

  lemma {:induction false} WithoutReposHold(db: Db, repos: seq<int>, faults: set<Stmt>,
                                            installation: int, repo: int, o: Option<Tenant>)
    requires HeldBy(db, installation, repo, o)
    ensures HeldBy(WithoutRepos(db, repos, faults).db, installation, repo, o)
    decreases |repos|
  {
    if |repos| > 0 && RepoDelete(repos[0]) !in faults {
      WithoutReposHold(WithoutRepo(db, repos[0]), repos[1..], faults, installation, repo, o);
    }
  }

  lemma InstallationHolds(db: Db, e: Event, faults: set<Stmt>, installation: int, repo: int, o: Option<Tenant>)
    requires HeldBy(db, installation, repo, o) && e.InstallationChange? && !Moves(e, installation, repo)
    requires o.Some? ==> e.action != "deleted" || e.id != installation
    ensures HeldBy(AfterInstallation(db, e, faults).db, installation, repo, o)
  {
    var added := WithInstallation(db, e.id, e.login, e.accountType);
    assert HeldBy(added, installation, repo, o);
    WithReposHold(added, e.repositories, e.id, faults, installation, repo, o);
  }

  lemma DispatchHolds(db: Db, d: Delivery, installation: int, repo: int, o: Option<Tenant>)
    requires HeldBy(db, installation, repo, o) && !Disturbs(Deliver(d), installation, repo, o)
    ensures HeldBy(Dispatched(db, d.event, d.faults, d.findings).db, installation, repo, o)
  {
    var e := d.event;
    if e.InstallationChange? {
      InstallationHolds(db, e, d.faults, installation, repo, o);
    } else if e.InstallationRepos? {
      WithReposHold(db, e.added, e.id, d.faults, installation, repo, o);
      WithoutReposHold(WithRepos(db, e.added, e.id, d.faults).db, e.removed, d.faults, installation, repo, o);
    } else if e.Repository? {
      RepositoryHolds(db, e, d.faults, installation, repo, o);
    } else {
      OthersKeepRows(db, e, d.faults, d.findings);
    }
  }

  lemma RepositoryHolds(db: Db, e: Event, faults: set<Stmt>, installation: int, repo: int, o: Option<Tenant>)
    requires HeldBy(db, installation, repo, o) && e.Repository? && !Moves(e, installation, repo)
    ensures HeldBy(AfterRepository(db, e, faults).db, installation, repo, o)
  {
  }

  lemma OthersKeepRows(db: Db, e: Event, faults: set<Stmt>, findings: Option<Findings>)
    requires !e.InstallationChange? && !e.InstallationRepos? && !e.Repository?
    ensures var h := Dispatched(db, e, faults, findings).db;
            h.repos == db.repos && h.installations == db.installations
  {
  }

  /** Main result: whoever holds a repository holds it through every run without
      a disturbing action. No other tenant's connecting or disconnecting, and no
      suspension, is one. */
  lemma {:induction false} HeldThroughRun(db: Db, run: seq<Action>, installation: int, repo: int, o: Option<Tenant>)
    requires HeldBy(db, installation, repo, o)
    requires forall i :: 0 <= i < |run| ==> !Disturbs(run[i], installation, repo, o)
    ensures HeldBy(After(db, run), installation, repo, o)
  {
    if |run| > 0 {
      var n := |run| - 1;
      HeldThroughRun(db, run[..n], installation, repo, o);
      var before := After(db, run[..n]);
      match run[n]
      case Deliver(d) => DispatchHolds(Recorded(before, d), d, installation, repo, o);
      case _ =>
    }
  }

  /** A pull-request event with nothing in its way but a suppression. */
  ghost predicate Complete(db: Db, d: Delivery, installation: int, repo: int) {
    Accepted(db, d) && d.event.PullRequest? && Analyzed(d.event.action) && d.findings.Some? && d.faults == {}
    && d.event.installation == installation && d.event.repo.id == repo
  }

  /** Main result: disconnecting a repository in the webapp does not stop its
      analyses. Through any undisturbed run its events are stored for the tenant
      as before, unless suppressed: they fall back to the installation. */
  lemma DisconnectKeepsAnalyses(db: Db, customer: Tenant, repo: int, run: seq<Action>, d: Delivery)
    requires repo in db.repos && db.repos[repo].installation in db.installations
    requires db.installations[db.repos[repo].installation].customer == Some(customer)
    requires var installation := db.repos[repo].installation;
             (forall i :: 0 <= i < |run| ==> !Disturbs(run[i], installation, repo, Some(customer)))
    ensures var off := Apply(db, Connect(customer, db.repos[repo].name, false));
            var later := After(off, run);
            !off.repos[repo].connected
            && (Complete(later, d, db.repos[repo].installation, repo)
                && SuppressionKey(customer, d.event.repo.name, d.event.number, "") !in later.suppressions
                ==> exists row: Analysis :: row.customer == customer && Writes(later, d, KeyOf(d.event), row))
  {
    var off := Apply(db, Connect(customer, db.repos[repo].name, false));
    var installation := db.repos[repo].installation;
    HeldThroughRun(off, run, installation, repo, Some(customer));
    var later := After(off, run);
    HeldIsTenant(later, installation, repo, Some(customer));
    if Complete(later, d, installation, repo)
       && SuppressionKey(customer, d.event.repo.name, d.event.number, "") !in later.suppressions {
      SilencedIff(later, d, customer);
      var row :| Writes(later, d, KeyOf(d.event), row);
      assert row.customer == customer;
    }
  }

  /** Main result: an uninstall does stop them. Until somebody claims the
      installation again or the repository moves, no event of the repository is
      stored for anyone, reinstalled or not. */
  lemma UninstallStopsAnalyses(db: Db, gone: Delivery, repo: int, run: seq<Action>, d: Delivery, row: Analysis)
    requires Linked(db) && Accepted(db, gone) && gone.event.InstallationChange? && gone.event.action == "deleted"
    requires InstallationDelete !in gone.faults
    requires repo in db.repos ==> db.repos[repo].installation == gone.event.id
    requires forall i :: 0 <= i < |run| ==> !Disturbs(run[i], gone.event.id, repo, None)
    requires d.event.PullRequest? && d.event.installation == gone.event.id && d.event.repo.id == repo
    ensures !Writes(After(Apply(db, Deliver(gone)), run), d, KeyOf(d.event), row)
  {
    var off := Apply(db, Deliver(gone));
    assert HeldBy(off, gone.event.id, repo, None);
    HeldThroughRun(off, run, gone.event.id, repo, None);
    HeldIsTenant(After(off, run), gone.event.id, repo, None);
  }

  // ---- whose suppressions count ---------------------------------------------------------

  /** The same repositories, installations and deliveries, and the same whole-PR
      suppressions of tenant t; other tenants' and single findings' may differ. */
  ghost predicate SameFor(a: Db, b: Db, t: Tenant) {
    a.installations == b.installations && a.repos == b.repos && a.deliveries == b.deliveries
    && SameKeys(a.suppressions, b.suppressions, t)
  }

  ghost predicate SameKeys(a: map<SuppressionKey, Suppression>, b: map<SuppressionKey, Suppression>, t: Tenant) {
    forall repo, number ::
      SuppressionKey(t, repo, number, "") in a <==> SuppressionKey(t, repo, number, "") in b
  }

  lemma {:induction false} WithReposSame(a: Db, b: Db, repos: seq<RepoRef>, id: int, faults: set<Stmt>, t: Tenant)
    requires SameFor(a, b, t)
    ensures SameFor(WithRepos(a, repos, id, faults).db, WithRepos(b, repos, id, faults).db, t)
    ensures WithRepos(a, repos, id, faults).ok == WithRepos(b, repos, id, faults).ok
    decreases |repos|
  {
    if |repos| > 0 && RepoUpsert(repos[0].id) !in faults && id in a.installations {
      WithReposSame(WithRepo(a, repos[0], id), WithRepo(b, repos[0], id), repos[1..], id, faults, t);
    }
  }

  lemma {:induction false} WithoutReposSame(a: Db, b: Db, repos: seq<int>, faults: set<Stmt>, t: Tenant)
    requires SameFor(a, b, t)
    ensures SameFor(WithoutRepos(a, repos, faults).db, WithoutRepos(b, repos, faults).db, t)
    decreases |repos|
  {
    if |repos| > 0 && RepoDelete(repos[0]) !in faults {
      WithoutReposSame(WithoutRepo(a, repos[0]), WithoutRepo(b, repos[0]), repos[1..], faults, t);
    }
  }

  lemma DeletedSame(a: Db, b: Db, id: int, t: Tenant)
    requires SameFor(a, b, t)
    ensures SameFor(WithoutInstallation(a, id), WithoutInstallation(b, id), t)
  {
    hide SameKeys;
    assert WithoutInstallation(a, id).repos == WithoutInstallation(b, id).repos;
  }

  lemma ConnectSame(a: Db, b: Db, customer: Tenant, name: string, on: bool, t: Tenant)
    requires SameFor(a, b, t)
    ensures SameFor(WithConnection(a, customer, name, on), WithConnection(b, customer, name, on), t)
  {
    hide SameKeys;
    forall row ensures Reconnected(a, row, customer, name, on) == Reconnected(b, row, customer, name, on) {
    }
    var x, y := WithConnection(a, customer, name, on).repos, WithConnection(b, customer, name, on).repos;
    assert forall r :: r in a.repos ==> x[r] == Reconnected(a, a.repos[r], customer, name, on);
    assert forall r :: r in b.repos ==> y[r] == Reconnected(b, b.repos[r], customer, name, on);
    assert x == y;
  }

  lemma InstallationSame(a: Db, b: Db, e: Event, faults: set<Stmt>, t: Tenant)
    requires SameFor(a, b, t) && e.InstallationChange?
    ensures SameFor(AfterInstallation(a, e, faults).db, AfterInstallation(b, e, faults).db, t)
  {
    hide SameKeys;
    DeletedSame(a, b, e.id, t);
    WithReposSame(WithInstallation(a, e.id, e.login, e.accountType),
                  WithInstallation(b, e.id, e.login, e.accountType), e.repositories, e.id, faults, t);
  }

  lemma ResolvedSame(a: Db, b: Db, installation: int, repo: int, faults: set<Stmt>)
    requires a.installations == b.installations && a.repos == b.repos
    ensures Resolved(a, installation, repo, faults) == Resolved(b, installation, repo, faults)
  {
  }

  lemma RecordedSame(a: Db, b: Db, key: SuppressionKey, row: Suppression, t: Tenant)
    requires SameFor(a, b, t)
    ensures SameFor(WithSuppression(a, key, row), WithSuppression(b, key, row), t)
  {
  }

  lemma PullRequestSame(a: Db, b: Db, e: Event, faults: set<Stmt>, findings: Option<Findings>, t: Tenant)
    requires SameFor(a, b, t) && e.PullRequest?
    ensures SameFor(AfterPullRequest(a, e, faults, findings).db, AfterPullRequest(b, e, faults, findings).db, t)
  {
    hide SameKeys, Resolved, Analyzed, KeyOf;
    ResolvedSame(a, b, e.installation, e.repo.id, faults);
  }

  lemma CommentSame(a: Db, b: Db, e: Event, faults: set<Stmt>, t: Tenant)
    requires SameFor(a, b, t) && e.IssueComment?
    ensures SameFor(AfterIssueComment(a, e, faults).db, AfterIssueComment(b, e, faults).db, t)
  {
    hide SameKeys, Suppresses, Resolved;
    ResolvedSame(a, b, e.installation, e.repo.id, faults);
    forall key, row ensures SameFor(WithSuppression(a, key, row), WithSuppression(b, key, row), t) {
      RecordedSame(a, b, key, row, t);
    }
  }

  lemma DispatchSame(a: Db, b: Db, d: Delivery, t: Tenant)
    requires SameFor(a, b, t)
    ensures SameFor(Dispatched(a, d.event, d.faults, d.findings).db, Dispatched(b, d.event, d.faults, d.findings).db, t)
  {
    hide AfterInstallation, AfterPullRequest, AfterIssueComment;
    var e := d.event;
    match e
    case PullRequest(_, _, _, _, _, _) => PullRequestSame(a, b, e, d.faults, d.findings, t);
    case IssueComment(_, _, _, _, _, _, _) => CommentSame(a, b, e, d.faults, t);
    case InstallationChange(_, _, _, _, _) => InstallationSame(a, b, e, d.faults, t);
    case InstallationRepos(_, _, _) =>
      WithReposSame(a, b, e.added, e.id, d.faults, t);
      WithoutReposSame(WithRepos(a, e.added, e.id, d.faults).db, WithRepos(b, e.added, e.id, d.faults).db,
                       e.removed, d.faults, t);
    case _ =>
  }

  lemma {:induction false} RunSame(a: Db, b: Db, run: seq<Action>, t: Tenant)
    requires SameFor(a, b, t)
    ensures SameFor(After(a, run), After(b, run), t)
  {
    hide Dispatched, SameKeys, WithConnection;
    if |run| > 0 {
      var n := |run| - 1;
      RunSame(a, b, run[..n], t);
      var x, y := After(a, run[..n]), After(b, run[..n]);
      match run[n]
      case Deliver(d) => DispatchSame(Recorded(x, d), Recorded(y, d), d, t);
      case Connect(c, name, on) => ConnectSame(x, y, c, name, on, t);
      case Claim(_, _) =>
    }
  }

  /** The delivery stores an analysis for tenant t. */
  ghost predicate StoresFor(db: Db, d: Delivery, t: Tenant) {
    exists row: Analysis :: row.customer == t && d.event.PullRequest? && Writes(db, d, KeyOf(d.event), row)
  }

  lemma StoresForOne(a: Db, b: Db, d: Delivery, t: Tenant)
    requires SameFor(a, b, t) && StoresFor(a, d, t)
    ensures StoresFor(b, d, t)
  {
    var key := KeyOf(d.event);
    var row: Analysis :| row.customer == t && Writes(a, d, key, row);
    var other :=
      if key in b.analyses then row.(installation := b.analyses[key].installation, url := b.analyses[key].url)
      else row.(installation := d.event.installation, url := d.event.url);
    assert Writes(b, d, key, other);
  }

  ghost function WithoutKey(db: Db, s: SuppressionKey): Db {
    db.(suppressions := map k | k in db.suppressions && k != s :: db.suppressions[k])
  }

  /** Main result: a suppression of another tenant, or of one finding, decides
      nothing for a tenant, however long the run after it. */
  lemma SuppressionIsTenantScoped(db: Db, s: SuppressionKey, run: seq<Action>, d: Delivery, t: Tenant)
    requires s.customer != t || s.finding != ""
    ensures StoresFor(After(db, run), d, t) <==> StoresFor(After(WithoutKey(db, s), run), d, t)
  {
    hide Writes;
    var a, b := After(db, run), After(WithoutKey(db, s), run);
    RunSame(db, WithoutKey(db, s), run, t);
    if StoresFor(a, d, t) {
      StoresForOne(a, b, d, t);
    }
    if StoresFor(b, d, t) {
      StoresForOne(b, a, d, t);
    }
  }
}
