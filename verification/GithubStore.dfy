/** internal/githubapp/store.go and the two writes of internal/api/github_app.go:
    the github_* and pr_* tables. Each SQL statement is one atomic step that
    takes effect or, when it is among the faults, fails and changes nothing. */
module GithubStore {
  import opened SqlAst
  import Impact
  import PrAnalysis

  type Tenant = string

  datatype Installation = Installation(login: string, accountType: string, customer: Option<Tenant>, suspended: bool)
  datatype Repo = Repo(installation: int, name: string, customer: Option<Tenant>, connected: bool)
  datatype RepoRef = RepoRef(id: int, name: string)

  /** The columns of pr_analysis under its unique key. */
  datatype PrKey = PrKey(repo: string, number: int, sha: string)
  datatype Findings = Findings(changes: seq<Impact.Change>, hits: seq<Impact.Hit>,
                               dqRefs: seq<PrAnalysis.DQRef>, conclusion: string)
  datatype Analysis = Analysis(customer: Tenant, installation: int, url: string, findings: Findings)

  datatype SuppressionKey = SuppressionKey(customer: Tenant, repo: string, number: int, finding: string)
  datatype Suppression = Suppression(repoId: int, author: string)

  datatype Db = Db(
    installations: map<int, Installation>,
    repos: map<int, Repo>,
    deliveries: map<string, string>,
    analyses: map<PrKey, Analysis>,
    suppressions: map<SuppressionKey, Suppression>)

  /** The statements one delivery can issue. */
  datatype Stmt =
    | Dedupe | RepoLookup | InstallationLookup | SuppressionLookup
    | SuppressionInsert | AnalysisUpsert
    | InstallationUpsert | InstallationDelete | InstallationUpdate
    | RepoUpsert(id: int) | RepoDelete(id: int)

  datatype Reply<T> = Done(value: T) | NoCustomer | DbError

  // ---- what each operation does to the tables ----------------------------------------

  /** The tenant a repository's events belong to: a connected repo row that
      names one, else the one its installation is claimed by. */
  function TenantOf(db: Db, installation: int, repo: int): Option<Tenant> {
    if repo in db.repos && db.repos[repo].connected && db.repos[repo].customer.Some? then db.repos[repo].customer
    else if installation in db.installations then db.installations[installation].customer
    else None
  }

  ghost predicate HasOverride(db: Db, repo: int) {
    repo in db.repos && db.repos[repo].connected && db.repos[repo].customer.Some?
  }

  /** ResolveCustomer's answer: an error exactly when a query it needs fails. */
  ghost function Resolved(db: Db, installation: int, repo: int, faults: set<Stmt>): Reply<Tenant> {
    if RepoLookup in faults || (InstallationLookup in faults && !HasOverride(db, repo)) then DbError
    else
      match TenantOf(db, installation, repo)
      case Some(t) => Done(t)
      case None => NoCustomer
  }

  /** The foreign key of github_repo (migrations/0021). */
  ghost predicate Linked(db: Db) {
    forall r :: r in db.repos ==> db.repos[r].installation in db.installations
  }

  function WithInstallation(db: Db, id: int, login: string, accountType: string): Db {
    var row :=
      if id in db.installations then db.installations[id].(login := login, suspended := false)
      else Installation(login, accountType, None, false);
    db.(installations := db.installations[id := row])
  }

  /** Deleting an installation deletes its repo rows with it. */
  function WithoutInstallation(db: Db, id: int): Db {
    db.(installations := map i | i in db.installations && i != id :: db.installations[i],
        repos := map r | r in db.repos && !(id in db.installations && db.repos[r].installation == id) :: db.repos[r])
  }

  function WithSuspension(db: Db, id: int, suspended: bool): Db {
    if id in db.installations
    then db.(installations := db.installations[id := db.installations[id].(suspended := suspended)])
    else db
  }

  /** A new repo row is not connected and names no tenant; an old one keeps both. */
  function WithRepo(db: Db, repo: RepoRef, installation: int): Db {
    var row :=
      if repo.id in db.repos then db.repos[repo.id].(name := repo.name, installation := installation)
      else Repo(installation, repo.name, None, false);
    db.(repos := db.repos[repo.id := row])
  }

  function WithoutRepo(db: Db, id: int): Db {
    db.(repos := map r | r in db.repos && r != id :: db.repos[r])
  }

  /** On a key already there the installation and the URL stay as they were. */
  function WithAnalysis(db: Db, key: PrKey, row: Analysis): Db {
    var stored :=
      if key in db.analyses then db.analyses[key].(customer := row.customer, findings := row.findings) else row;
    db.(analyses := db.analyses[key := stored])
  }

  function WithSuppression(db: Db, key: SuppressionKey, s: Suppression): Db {
    if key in db.suppressions then db else db.(suppressions := db.suppressions[key := s])
  }

  /** githubSetupCallback: the installing customer claims the installation. */
  function Claimed(db: Db, id: int, customer: Tenant): Db {
    var row :=
      if id in db.installations then db.installations[id].(customer := Some(customer))
      else Installation("", "Organization", Some(customer), false);
    db.(installations := db.installations[id := row])
  }

  function Reconnected(db: Db, row: Repo, customer: Tenant, name: string, connected: bool): Repo {
    if row.name == name && row.installation in db.installations
       && db.installations[row.installation].customer == Some(customer)
    then row.(connected := connected, customer := Some(customer))
    else row
  }

  /** setGitHubRepoConnected: only under the customer's own installations. */
  function WithConnection(db: Db, customer: Tenant, name: string, connected: bool): Db {
    db.(repos := map r | r in db.repos :: Reconnected(db, db.repos[r], customer, name, connected))
  }

  // ---- the store -----------------------------------------------------------------------

  class Store {
    var installations: map<int, Installation>
    var repos: map<int, Repo>
    var deliveries: map<string, string>
    var analyses: map<PrKey, Analysis>
    var suppressions: map<SuppressionKey, Suppression>

    function View(): Db
      reads this
    {
      Db(installations, repos, deliveries, analyses, suppressions)
    }

    constructor ()
      ensures View() == Db(map[], map[], map[], map[], map[])
    {
      installations, repos, deliveries, analyses, suppressions := map[], map[], map[], map[], map[];
    }

    /** Two queries, the second only when the first names no tenant. */
    method ResolveCustomer(installation: int, repo: int, faults: set<Stmt>) returns (r: Reply<Tenant>)
      ensures r == Resolved(View(), installation, repo, faults)
    {
      if RepoLookup in faults {
        return DbError;
      }
      if repo in repos && repos[repo].connected && repos[repo].customer.Some? {
        return Done(repos[repo].customer.value);
      }
      if InstallationLookup in faults {
        return DbError;
      }
      if installation !in installations {
        return NoCustomer;
      }
      if installations[installation].customer.None? {
        return NoCustomer;
      }
      r := Done(installations[installation].customer.value);
    }

    /** Whether this delivery id is new; it is recorded before any processing. */
    method WebhookSeen(id: string, event: string, faults: set<Stmt>) returns (r: Reply<bool>)
      modifies `deliveries
      ensures id == "" ==> r == Done(true)
      ensures id != "" && Dedupe in faults ==> r == DbError
      ensures id != "" && Dedupe !in faults ==> r == Done(id !in old(deliveries))
      ensures deliveries == if id != "" && r == Done(true) then old(deliveries)[id := event] else old(deliveries)
    {
      if id == "" {
        return Done(true);
      }
      if Dedupe in faults {
        return DbError;
      }
      if id in deliveries {
        return Done(false);
      }
      deliveries := deliveries[id := event];
      r := Done(true);
    }

    method UpsertInstallation(id: int, login: string, accountType: string, faults: set<Stmt>) returns (ok: bool)
      modifies `installations
      ensures ok == (InstallationUpsert !in faults)
      ensures View() == if ok then WithInstallation(old(View()), id, login, accountType) else old(View())
    {
      if InstallationUpsert in faults {
        return false;
      }
      if id in installations {
        installations := installations[id := installations[id].(login := login, suspended := false)];
      } else {
        installations := installations[id := Installation(login, accountType, None, false)];
      }
      ok := true;
    }

    method DeleteInstallation(id: int, faults: set<Stmt>) returns (ok: bool)
      modifies `installations, `repos
      ensures ok == (InstallationDelete !in faults)
      ensures View() == if ok then WithoutInstallation(old(View()), id) else old(View())
    {
      if InstallationDelete in faults {
        return false;
      }
      repos := map r | r in repos && !(id in installations && repos[r].installation == id) :: repos[r];
      installations := map i | i in installations && i != id :: installations[i];
      ok := true;
    }

    method SuspendInstallation(id: int, suspended: bool, faults: set<Stmt>) returns (ok: bool)
      modifies `installations
      ensures ok == (InstallationUpdate !in faults)
      ensures View() == if ok then WithSuspension(old(View()), id, suspended) else old(View())
    {
      if InstallationUpdate in faults {
        return false;
      }
      if id in installations {
        installations := installations[id := installations[id].(suspended := suspended)];
      }
      ok := true;
    }

    /** The foreign key refuses a repo of an unknown installation. */
    method UpsertRepo(repo: RepoRef, installation: int, faults: set<Stmt>) returns (ok: bool)
      modifies `repos
      ensures ok == (RepoUpsert(repo.id) !in faults && installation in installations)
      ensures View() == if ok then WithRepo(old(View()), repo, installation) else old(View())
    {
      if RepoUpsert(repo.id) in faults || installation !in installations {
        return false;
      }
      if repo.id in repos {
        repos := repos[repo.id := repos[repo.id].(name := repo.name, installation := installation)];
      } else {
        repos := repos[repo.id := Repo(installation, repo.name, None, false)];
      }
      ok := true;
    }

    method RemoveRepo(id: int, faults: set<Stmt>) returns (ok: bool)
      modifies `repos
      ensures ok == (RepoDelete(id) !in faults)
      ensures View() == if ok then WithoutRepo(old(View()), id) else old(View())
    {
      if RepoDelete(id) in faults {
        return false;
      }
      repos := map r | r in repos && r != id :: repos[r];
      ok := true;
    }

    method UpsertPRAnalysis(key: PrKey, row: Analysis, faults: set<Stmt>) returns (ok: bool)
      modifies `analyses
      ensures ok == (AnalysisUpsert !in faults)
      ensures View() == if ok then WithAnalysis(old(View()), key, row) else old(View())
    {
      if AnalysisUpsert in faults {
        return false;
      }
      if key in analyses {
        analyses := analyses[key := analyses[key].(customer := row.customer, findings := row.findings)];
      } else {
        analyses := analyses[key := row];
      }
      ok := true;
    }

    /** Whether the whole pull request is suppressed; no, when the query fails. */
    method IsSuppressed(customer: Tenant, repo: string, number: int, faults: set<Stmt>) returns (suppressed: bool)
      ensures suppressed
         <==> SuppressionLookup !in faults && SuppressionKey(customer, repo, number, "") in View().suppressions
    {
      if SuppressionLookup in faults {
        return false;
      }
      suppressed := SuppressionKey(customer, repo, number, "") in suppressions;
    }

    method RecordSuppression(key: SuppressionKey, s: Suppression, faults: set<Stmt>) returns (ok: bool)
      modifies `suppressions
      ensures ok == (SuppressionInsert !in faults)
      ensures View() == if ok then WithSuppression(old(View()), key, s) else old(View())
    {
      if SuppressionInsert in faults {
        return false;
      }
      if key !in suppressions {
        suppressions := suppressions[key := s];
      }
      ok := true;
    }

    method ClaimInstallation(id: int, customer: Tenant)
      modifies `installations
      ensures View() == Claimed(old(View()), id, customer)
    {
      if id in installations {
        installations := installations[id := installations[id].(customer := Some(customer))];
      } else {
        installations := installations[id := Installation("", "Organization", Some(customer), false)];
      }
    }

    method SetRepoConnected(customer: Tenant, name: string, connected: bool)
      modifies `repos
      ensures View() == WithConnection(old(View()), customer, name, connected)
    {
      repos := map r | r in repos :: Reconnected(View(), repos[r], customer, name, connected);
    }
  }
}
