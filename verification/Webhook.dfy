/** internal/githubapp/webhook.go: the webhook endpoint as a state machine over
    the tables. The signature check, the decoded body, the statements that fail
    and what the analysis of a pull request finds are part of each delivery. */
module Webhook {
  import opened SqlAst
  import opened GithubStore
  import Identifiers
  import TextLines

  datatype Event =
    | PullRequest(action: string, number: int, url: string, sha: string, repo: RepoRef, installation: int)
    | IssueComment(action: string, number: int, onPullRequest: bool, body: string, login: string,
                   repo: RepoRef, installation: int)
    | InstallationChange(action: string, id: int, login: string, accountType: string, repositories: seq<RepoRef>)
    | InstallationRepos(id: int, added: seq<RepoRef>, removed: seq<int>)
    | Repository(action: string, repo: RepoRef, installation: int)
    | Push
    | Malformed(header: string)
    | Unhandled(header: string)

  function HeaderOf(e: Event): string {
    match e
    case PullRequest(_, _, _, _, _, _) => "pull_request"
    case IssueComment(_, _, _, _, _, _, _) => "issue_comment"
    case InstallationChange(_, _, _, _, _) => "installation"
    case InstallationRepos(_, _, _) => "installation_repositories"
    case Repository(_, _, _) => "repository"
    case Push => "push"
    case Malformed(h) => h
    case Unhandled(h) => h
  }

  /** A request. `findings` is None when AnalyzePR fails before it stores anything. */
  datatype Delivery = Delivery(signed: bool, id: string, event: Event,
                               faults: set<Stmt>, findings: Option<Findings>)

  datatype Handled = Handled(db: Db, ok: bool)

  const OK := 200
  const UNAUTHORIZED := 401
  const SERVER_ERROR := 500

  predicate Analyzed(action: string) {
    action == "opened" || action == "synchronize" || action == "reopened" || action == "edited"
  }

  // ---- suppression comments -----------------------------------------------------------

  const DIRECTIVE := "/uv suppress"

  function Trim(s: string): string {
    Identifiers.TrimRight(Identifiers.TrimLeft(s))
  }

  predicate IsDirective(line: string) {
    DIRECTIVE <= Trim(line)
  }

  ghost predicate Suppresses(body: string) {
    exists i :: 0 <= i < |TextLines.Split(body)| && IsDirective(TextLines.Split(body)[i])
  }

  method HasSuppressDirective(body: string) returns (found: bool)
    ensures found <==> Suppresses(body)
  {
    var lines := TextLines.Split(body);
    for i := 0 to |lines|
      invariant forall k :: 0 <= k < i ==> !IsDirective(lines[k])
    {
      if DIRECTIVE <= Trim(lines[i]) {
        return true;
      }
    }
    found := false;
  }

  // ---- what each event does ------------------------------------------------------------

  function KeyOf(e: Event): PrKey
    requires e.PullRequest?
  {
    PrKey(e.repo.name, e.number, e.sha)
  }

  ghost function AfterPullRequest(db: Db, e: Event, faults: set<Stmt>, findings: Option<Findings>): Handled
    requires e.PullRequest?
  {
    if !Analyzed(e.action) then Handled(db, true)
    else
      match Resolved(db, e.installation, e.repo.id, faults)
      case DbError => Handled(db, false)
      case NoCustomer => Handled(db, true)
      case Done(t) =>
        if SuppressionLookup !in faults && SuppressionKey(t, e.repo.name, e.number, "") in db.suppressions
        then Handled(db, true)
        else if findings.None? || AnalysisUpsert in faults then Handled(db, false)
        else Handled(WithAnalysis(db, KeyOf(e), Analysis(t, e.installation, e.url, findings.value)), true)
  }

  ghost function AfterIssueComment(db: Db, e: Event, faults: set<Stmt>): Handled
    requires e.IssueComment?
  {
    if e.action != "created" || !e.onPullRequest || !Suppresses(e.body) then Handled(db, true)
    else
      match Resolved(db, e.installation, e.repo.id, faults)
      case DbError => Handled(db, false)
      case NoCustomer => Handled(db, true)
      case Done(t) =>
        if SuppressionInsert in faults then Handled(db, false)
        else Handled(WithSuppression(db, SuppressionKey(t, e.repo.name, e.number, ""),
                                     Suppression(e.repo.id, e.login)), true)
  }

  /** Upserts in order; the first that fails ends the loop. */
  ghost function WithRepos(db: Db, repos: seq<RepoRef>, installation: int, faults: set<Stmt>): Handled
    decreases |repos|
  {
    if |repos| == 0 then Handled(db, true)
    else if RepoUpsert(repos[0].id) in faults || installation !in db.installations then Handled(db, false)
    else WithRepos(WithRepo(db, repos[0], installation), repos[1..], installation, faults)
  }

  ghost function WithoutRepos(db: Db, repos: seq<int>, faults: set<Stmt>): Handled
    decreases |repos|
  {
    if |repos| == 0 then Handled(db, true)
    else if RepoDelete(repos[0]) in faults then Handled(db, false)
    else WithoutRepos(WithoutRepo(db, repos[0]), repos[1..], faults)
  }

  ghost function AfterInstallation(db: Db, e: Event, faults: set<Stmt>): Handled
    requires e.InstallationChange?
  {
    if e.action == "created" then
      if InstallationUpsert in faults then Handled(db, false)
      else WithRepos(WithInstallation(db, e.id, e.login, e.accountType), e.repositories, e.id, faults)
    else if e.action == "deleted" then
      if InstallationDelete in faults then Handled(db, false) else Handled(WithoutInstallation(db, e.id), true)
    else if e.action == "suspend" || e.action == "unsuspend" then
      if InstallationUpdate in faults then Handled(db, false)
      else Handled(WithSuspension(db, e.id, e.action == "suspend"), true)
    else Handled(db, true)
  }

  ghost function AfterInstallationRepos(db: Db, e: Event, faults: set<Stmt>): Handled
    requires e.InstallationRepos?
  {
    var added := WithRepos(db, e.added, e.id, faults);
    if added.ok then WithoutRepos(added.db, e.removed, faults) else added
  }

  ghost function AfterRepository(db: Db, e: Event, faults: set<Stmt>): Handled
    requires e.Repository?
  {
    if e.action != "renamed" && e.action != "transferred" then Handled(db, true)
    else if RepoUpsert(e.repo.id) in faults || e.installation !in db.installations then Handled(db, false)
    else Handled(WithRepo(db, e.repo, e.installation), true)
  }

  ghost function Dispatched(db: Db, e: Event, faults: set<Stmt>, findings: Option<Findings>): Handled {
    match e
    case PullRequest(_, _, _, _, _, _) => AfterPullRequest(db, e, faults, findings)
    case IssueComment(_, _, _, _, _, _, _) => AfterIssueComment(db, e, faults)
    case InstallationChange(_, _, _, _, _) => AfterInstallation(db, e, faults)
    case InstallationRepos(_, _, _) => AfterInstallationRepos(db, e, faults)
    case Repository(_, _, _) => AfterRepository(db, e, faults)
    case Push => Handled(db, true)
    case Malformed(_) => Handled(db, false)
    case Unhandled(_) => Handled(db, true)
  }

  /** The delivery gets past the signature and the dedupe. */
  ghost predicate Accepted(db: Db, d: Delivery) {
    d.signed && (d.id == "" || (Dedupe !in d.faults && d.id !in db.deliveries))
  }

  function Recorded(db: Db, d: Delivery): Db {
    if d.id == "" then db else db.(deliveries := db.deliveries[d.id := HeaderOf(d.event)])
  }

  ghost function Served(db: Db, d: Delivery): (Db, int) {
    if Accepted(db, d) then (Dispatched(Recorded(db, d), d.event, d.faults, d.findings).db, OK)
    else (db, if !d.signed then UNAUTHORIZED else if Dedupe in d.faults then SERVER_ERROR else OK)
  }

  // ---- the handler ----------------------------------------------------------------------

  class Handler {
    const store: Store

    constructor (store: Store)
      ensures this.store == store
    {
      this.store := store;
    }

    method ServeWebhook(d: Delivery) returns (status: int)
      modifies store
      ensures (store.View(), status) == Served(old(store.View()), d)
    {
      if !d.signed {
        return UNAUTHORIZED;
      }
      var first := store.WebhookSeen(d.id, HeaderOf(d.event), d.faults);
      if first.DbError? {
        return SERVER_ERROR;
      }
      if first != Done(true) {
        return OK;
      }
      var ok := Dispatch(d.event, d.faults, d.findings);
      status := OK;
    }

    method Dispatch(e: Event, faults: set<Stmt>, findings: Option<Findings>) returns (ok: bool)
      modifies store
      ensures Handled(store.View(), ok) == Dispatched(old(store.View()), e, faults, findings)
    {
      match e
      case PullRequest(_, _, _, _, _, _) => ok := OnPullRequest(e, faults, findings);
      case IssueComment(_, _, _, _, _, _, _) => ok := OnIssueComment(e, faults);
      case InstallationChange(_, _, _, _, _) => ok := OnInstallation(e, faults);
      case InstallationRepos(_, _, _) => ok := OnInstallationRepos(e, faults);
      case Repository(_, _, _) => ok := OnRepository(e, faults);
      case Push => ok := true;
      case Malformed(_) => ok := false;
      case Unhandled(_) => ok := true;
    }

    method OnPullRequest(e: Event, faults: set<Stmt>, findings: Option<Findings>) returns (ok: bool)
      requires e.PullRequest?
      modifies store
      ensures Handled(store.View(), ok) == AfterPullRequest(old(store.View()), e, faults, findings)
    {
      if !(e.action == "opened" || e.action == "synchronize" || e.action == "reopened" || e.action == "edited") {
        return true;
      }
      var customer := store.ResolveCustomer(e.installation, e.repo.id, faults);
      if customer.NoCustomer? {
        return true;
      }
      if customer.DbError? {
        return false;
      }
      var suppressed := store.IsSuppressed(customer.value, e.repo.name, e.number, faults);
      if suppressed {
        return true;
      }
      if findings.None? {
        return false;
      }
      ok := store.UpsertPRAnalysis(KeyOf(e), Analysis(customer.value, e.installation, e.url, findings.value), faults);
    }

    method OnIssueComment(e: Event, faults: set<Stmt>) returns (ok: bool)
      requires e.IssueComment?
      modifies store
      ensures Handled(store.View(), ok) == AfterIssueComment(old(store.View()), e, faults)
    {
      var directive := HasSuppressDirective(e.body);
      if e.action != "created" || !e.onPullRequest || !directive {
        return true;
      }
      var customer := store.ResolveCustomer(e.installation, e.repo.id, faults);
      if customer.NoCustomer? {
        return true;
      }
      if customer.DbError? {
        return false;
      }
      ok := store.RecordSuppression(SuppressionKey(customer.value, e.repo.name, e.number, ""),
                                    Suppression(e.repo.id, e.login), faults);
    }

    method OnInstallation(e: Event, faults: set<Stmt>) returns (ok: bool)
      requires e.InstallationChange?
      modifies store
      ensures Handled(store.View(), ok) == AfterInstallation(old(store.View()), e, faults)
    {
      match e.action
      case "created" =>
        ok := store.UpsertInstallation(e.id, e.login, e.accountType, faults);
        if ok {
          ok := UpsertRepos(e.repositories, e.id, faults);
        }
      case "deleted" => ok := store.DeleteInstallation(e.id, faults);
      case "suspend" => ok := store.SuspendInstallation(e.id, true, faults);
      case "unsuspend" => ok := store.SuspendInstallation(e.id, false, faults);
      case _ => ok := true;
    }

    /** The loop over repositories that onInstallation and onInstallationRepos share. */
    method UpsertRepos(repos: seq<RepoRef>, installation: int, faults: set<Stmt>) returns (ok: bool)
      modifies store
      ensures Handled(store.View(), ok) == WithRepos(old(store.View()), repos, installation, faults)
    {
      for i := 0 to |repos|
        invariant WithRepos(old(store.View()), repos, installation, faults)
               == WithRepos(store.View(), repos[i..], installation, faults)
      {
        assert repos[i..][1..] == repos[i + 1..];
        ok := store.UpsertRepo(repos[i], installation, faults);
        if !ok {
          return false;
        }
      }
      ok := true;
    }

    method OnInstallationRepos(e: Event, faults: set<Stmt>) returns (ok: bool)
      requires e.InstallationRepos?
      modifies store
      ensures Handled(store.View(), ok) == AfterInstallationRepos(old(store.View()), e, faults)
    {
      ok := UpsertRepos(e.added, e.id, faults);
      if !ok {
        return false;
      }
      ghost var before := store.View();
      for i := 0 to |e.removed|
        invariant WithoutRepos(before, e.removed, faults) == WithoutRepos(store.View(), e.removed[i..], faults)
      {
        assert e.removed[i..][1..] == e.removed[i + 1..];
        ok := store.RemoveRepo(e.removed[i], faults);
        if !ok {
          return false;
        }
      }
      ok := true;
    }

    method OnRepository(e: Event, faults: set<Stmt>) returns (ok: bool)
      requires e.Repository?
      modifies store
      ensures Handled(store.View(), ok) == AfterRepository(old(store.View()), e, faults)
    {
      if e.action == "renamed" || e.action == "transferred" {
        ok := store.UpsertRepo(e.repo, e.installation, faults);
      } else {
        ok := true;
      }
    }
  }
}
