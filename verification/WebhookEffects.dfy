/** What each event does to the tables (internal/githubapp/webhook.go, store.go,
    internal/api/github_app.go), row by row and with the columns written out. */
module WebhookEffects {
  import opened SqlAst
  import opened GithubStore
  import opened Webhook
  import opened WebhookRuns
  import Identifiers
  import TextLines

  // ---- rows --------------------------------------------------------------------------

  ghost function Row<K, V>(table: map<K, V>, key: K): Option<V> {
    if key in table then Some(table[key]) else None
  }

  /** Upserts run in order and stop at the first that fails. */
  ghost predicate StopsAt(repos: seq<RepoRef>, faults: set<Stmt>, n: nat) {
    n <= |repos| && (forall i :: 0 <= i < n ==> RepoUpsert(repos[i].id) !in faults)
    && (n < |repos| ==> RepoUpsert(repos[n].id) in faults)
  }

  ghost predicate StopsRemovingAt(ids: seq<int>, faults: set<Stmt>, n: nat) {
    n <= |ids| && (forall i :: 0 <= i < n ==> RepoDelete(ids[i]) !in faults)
    && (n < |ids| ==> RepoDelete(ids[n]) in faults)
  }

  /** The name the list gives the repository last, if it lists it. */
  ghost function LastName(repos: seq<RepoRef>, id: int): Option<string> {
    if |repos| == 0 then None
    else if LastName(repos[1..], id).Some? then LastName(repos[1..], id)
    else if repos[0].id == id then Some(repos[0].name)
    else None
  }

  /** A row filed under an installation: what it was connected to stays. */
  ghost function Filed(row: Option<Repo>, installation: int, name: string): Repo {
    match row
    case Some(was) => Repo(installation, name, was.customer, was.connected)
    case None => Repo(installation, name, None, false)
  }

  ghost function RowFiled(repos: map<int, Repo>, listed: seq<RepoRef>, installation: int, id: int): Option<Repo> {
    match LastName(listed, id)
    case Some(name) => Some(Filed(Row(repos, id), installation, name))
    case None => Row(repos, id)
  }

  lemma {:induction false} UpsertsFile(db: Db, repos: seq<RepoRef>, installation: int, faults: set<Stmt>, n: nat)
    requires installation in db.installations && StopsAt(repos, faults, n)
    ensures var after := WithRepos(db, repos, installation, faults);
            after.ok == (n == |repos|) && after.db == db.(repos := after.db.repos)
            && forall id :: Row(after.db.repos, id) == RowFiled(db.repos, repos[..n], installation, id)
    decreases |repos|
  {
    hide Filed;
    if n > 0 {
      var next := WithRepo(db, repos[0], installation);
      assert repos[..n][1..] == repos[1..][..n - 1];
      assert forall i :: 0 <= i < |repos| - 1 ==> repos[1..][i] == repos[i + 1];
      UpsertsFile(next, repos[1..], installation, faults, n - 1);
      forall id ensures RowFiled(next.repos, repos[1..][..n - 1], installation, id)
                     == RowFiled(db.repos, repos[..n], installation, id) {
        FiledOnTop(db, repos[0], repos[1..][..n - 1], installation, id);
        assert repos[..n][0] == repos[0];
      }
    }
  }

  lemma FiledOnTop(db: Db, first: RepoRef, rest: seq<RepoRef>, installation: int, id: int)
    ensures RowFiled(WithRepo(db, first, installation).repos, rest, installation, id)
         == RowFiled(db.repos, [first] + rest, installation, id)
  {
    assert ([first] + rest)[1..] == rest;
  }

  lemma {:induction false} DeletesRemove(db: Db, ids: seq<int>, faults: set<Stmt>, n: nat)
    requires StopsRemovingAt(ids, faults, n)
    ensures var after := WithoutRepos(db, ids, faults);
            after.ok == (n == |ids|) && after.db == db.(repos := after.db.repos)
            && forall id :: Row(after.db.repos, id) == if id in ids[..n] then None else Row(db.repos, id)
    decreases |ids|
  {
    if n > 0 {
      var next := WithoutRepo(db, ids[0]);
      assert ids[..n] == [ids[0]] + ids[1..][..n - 1];
      assert forall i :: 0 <= i < |ids| - 1 ==> ids[1..][i] == ids[i + 1];
      DeletesRemove(next, ids[1..], faults, n - 1);
    }
  }

  // ---- installations and repositories ------------------------------------------------------

  /** Nothing but these two tables changes, and the delivery is recorded. */
  ghost predicate OnlyRepos(db: Db, after: Db) {
    after.analyses == db.analyses && after.suppressions == db.suppressions
  }

  /** Main result: repositories added to and removed from an installation. Each
      listed one up to the first failing upsert gets a row under the installation
      with the name listed last, what it was connected to staying; an unknown
      installation gets none. Only if all were added are the removed ones
      deleted, up to the first failing delete. No other row changes. */
  lemma ReposAreFiled(db: Db, d: Delivery, n: nat, m: nat)
    requires Accepted(db, d) && d.event.InstallationRepos?
    requires StopsAt(d.event.added, d.faults, n) && StopsRemovingAt(d.event.removed, d.faults, m)
    ensures var e, after := d.event, Served(db, d).0;
            var filed := if e.id in db.installations then n else 0;
            OnlyRepos(db, after) && after.installations == db.installations
            && forall id :: Row(after.repos, id)
                 == if filed == |e.added| && id in e.removed[..m] then None
                    else RowFiled(db.repos, e.added[..filed], e.id, id)
  {
    hide RowFiled, StopsAt, StopsRemovingAt, WithRepos, WithoutRepos;
    var e, start := d.event, Recorded(db, d);
    FirstUpsert(start, e.added, e.id, d.faults);
    var added := WithRepos(start, e.added, e.id, d.faults);
    NoneFiled(db.repos, e.added, e.id);
    if e.id in db.installations {
      UpsertsFile(start, e.added, e.id, d.faults, n);
      StopsWithin(e.added, d.faults, n);
    } else if |e.added| == 0 {
      assert e.added[..0] == e.added;
    }
    if added.ok {
      DeletesRemove(added.db, e.removed, d.faults, m);
    }
  }

  lemma FirstUpsert(db: Db, repos: seq<RepoRef>, installation: int, faults: set<Stmt>)
    ensures installation !in db.installations ==> WithRepos(db, repos, installation, faults) == Handled(db, repos == [])
  {
  }

  lemma StopsWithin(repos: seq<RepoRef>, faults: set<Stmt>, n: nat)
    requires StopsAt(repos, faults, n)
    ensures n <= |repos|
  {
  }

  lemma NoneFiled(repos: map<int, Repo>, listed: seq<RepoRef>, installation: int)
    ensures forall id :: RowFiled(repos, listed[..0], installation, id) == Row(repos, id)
  {
  }

  /** Main result: a new installation. Its row holds the login, is not suspended
      and keeps the claim and account type it had; its repositories are filed up
      to the first that fails. When its own upsert fails nothing changes. */
  lemma InstallationIsCreated(db: Db, d: Delivery, n: nat)
    requires Accepted(db, d) && d.event.InstallationChange? && d.event.action == "created"
    requires StopsAt(d.event.repositories, d.faults, n)
    ensures var e, after := d.event, Served(db, d).0;
            OnlyRepos(db, after)
            && (InstallationUpsert in d.faults ==>
                  after.installations == db.installations && after.repos == db.repos)
            && (InstallationUpsert !in d.faults ==>
                  (forall i :: i != e.id ==> Row(after.installations, i) == Row(db.installations, i))
                  && Row(after.installations, e.id) ==
                       (match Row(db.installations, e.id)
                        case Some(was) => Some(Installation(e.login, was.accountType, was.customer, false))
                        case None => Some(Installation(e.login, e.accountType, None, false)))
                  && forall id :: Row(after.repos, id) == RowFiled(db.repos, e.repositories[..n], e.id, id))
  {
    hide RowFiled, StopsAt;
    var e, start := d.event, Recorded(db, d);
    if InstallationUpsert !in d.faults {
      UpsertsFile(WithInstallation(start, e.id, e.login, e.accountType), e.repositories, e.id, d.faults, n);
    }
  }

  /** Main result: the other actions on an installation. Deleting it removes its
      row and every row filed under it; suspending and its reverse set one flag;
      any other action, or a failing statement, changes nothing. */
  lemma InstallationIsChanged(db: Db, d: Delivery)
    requires Accepted(db, d) && d.event.InstallationChange? && d.event.action != "created"
    ensures var e, after := d.event, Served(db, d).0;
            var deletes := e.action == "deleted" && InstallationDelete !in d.faults;
            var flags := e.action in {"suspend", "unsuspend"} && InstallationUpdate !in d.faults;
            OnlyRepos(db, after)
            && (forall i :: i != e.id ==> Row(after.installations, i) == Row(db.installations, i))
            && Row(after.installations, e.id) ==
                 (match Row(db.installations, e.id)
                  case None => None
                  case Some(was) =>
                    if deletes then None
                    else if flags then
                      Some(Installation(was.login, was.accountType, was.customer, e.action == "suspend"))
                    else Some(was))
            && forall id :: Row(after.repos, id) ==
                 if deletes && e.id in db.installations && id in db.repos && db.repos[id].installation == e.id then None
                 else Row(db.repos, id)
  {
    hide WithoutInstallation, WithSuspension;
    var e := d.event;
    RowsWithout(Recorded(db, d), e.id);
    RowsWithSuspension(Recorded(db, d), e.id, e.action == "suspend");
  }

  lemma RowsWithSuspension(db: Db, id: int, on: bool)
    ensures var after := WithSuspension(db, id, on);
            after == db.(installations := after.installations)
            && (forall i :: i != id ==> Row(after.installations, i) == Row(db.installations, i))
            && Row(after.installations, id) ==
                 (match Row(db.installations, id)
                  case Some(was) => Some(Installation(was.login, was.accountType, was.customer, on))
                  case None => None)
  {
  }

  lemma RowsWithout(db: Db, id: int)
    ensures var after := WithoutInstallation(db, id);
            after.deliveries == db.deliveries && OnlyRepos(db, after)
            && (forall i :: Row(after.installations, i) == if i == id then None else Row(db.installations, i))
            && forall r :: Row(after.repos, r) ==
                 if id in db.installations && r in db.repos && db.repos[r].installation == id then None
                 else Row(db.repos, r)
  {
  }

  /** Main result: a renamed or transferred repository is filed under the name and
      installation of the event, if that is known and the statement works. */
  lemma RepositoryIsRefiled(db: Db, d: Delivery)
    requires Accepted(db, d) && d.event.Repository?
    ensures var e, after := d.event, Served(db, d).0;
            var refiles := e.action in {"renamed", "transferred"} && RepoUpsert(e.repo.id) !in d.faults
                           && e.installation in db.installations;
            OnlyRepos(db, after) && after.installations == db.installations
            && (forall id :: id != e.repo.id ==> Row(after.repos, id) == Row(db.repos, id))
            && Row(after.repos, e.repo.id) ==
                 if refiles then Some(Filed(Row(db.repos, e.repo.id), e.installation, e.repo.name))
                 else Row(db.repos, e.repo.id)
  {
  }

  // ---- the webapp's writes -----------------------------------------------------------------

  /** Main result: claiming an installation makes the customer its tenant and
      leaves all else; a missing row is made. */
  lemma InstallationIsClaimed(db: Db, id: int, customer: Tenant)
    ensures var after := Apply(db, Claim(id, customer));
            OnlyRepos(db, after) && after.repos == db.repos && after.deliveries == db.deliveries
            && (forall i :: i != id ==> Row(after.installations, i) == Row(db.installations, i))
            && Row(after.installations, id) ==
                 (match Row(db.installations, id)
                  case Some(was) => Some(Installation(was.login, was.accountType, Some(customer), was.suspended))
                  case None => Some(Installation("", "Organization", Some(customer), false)))
  {
  }

  /** Main result: connecting and disconnecting set the flag and the tenant of the
      repositories of that name under the customer's own installations. */
  lemma RepoIsConnected(db: Db, customer: Tenant, name: string, on: bool)
    ensures var after := Apply(db, Connect(customer, name, on));
            OnlyRepos(db, after) && after.installations == db.installations && after.deliveries == db.deliveries
            && forall id :: Row(after.repos, id) ==
                 (match Row(db.repos, id)
                  case None => None
                  case Some(was) =>
                    if was.name == name && was.installation in db.installations
                       && db.installations[was.installation].customer == Some(customer)
                    then Some(Repo(was.installation, name, Some(customer), on)) else Some(was))
  {
  }

  // ---- whose an event is --------------------------------------------------------------------

  /** The tenant of an event, from the rows: that of the connected repository, or
      if there is none with a tenant, that of the installation. */
  ghost predicate IsTenant(db: Db, installation: int, repo: int, t: Tenant) {
    if repo in db.repos && db.repos[repo].connected && db.repos[repo].customer != None
    then db.repos[repo].customer == Some(t)
    else installation in db.installations && db.installations[installation].customer == Some(t)
  }

  /** The queries for it that are needed work. */
  ghost predicate TenantIsFound(db: Db, installation: int, repo: int, faults: set<Stmt>, t: Tenant) {
    IsTenant(db, installation, repo, t) && RepoLookup !in faults
    && (InstallationLookup in faults ==>
          repo in db.repos && db.repos[repo].connected && db.repos[repo].customer != None)
  }

  lemma FoundIsResolved(db: Db, installation: int, repo: int, faults: set<Stmt>, t: Tenant)
    ensures TenantIsFound(db, installation, repo, faults, t)
       <==> Resolved(db, installation, repo, faults) == Done(t)
  {
  }

  // ---- pull requests and comments ------------------------------------------------------------

  /** The analysis of the event goes to tenant t with these findings. */
  ghost predicate Stores(db: Db, d: Delivery, t: Tenant, f: Findings)
    requires d.event.PullRequest?
  {
    var e := d.event;
    e.action in {"opened", "synchronize", "reopened", "edited"}
    && TenantIsFound(db, e.installation, e.repo.id, d.faults, t)
    && (SuppressionLookup in d.faults || SuppressionKey(t, e.repo.name, e.number, "") !in db.suppressions)
    && d.findings == Some(f) && AnalysisUpsert !in d.faults
  }

  /** The row stored: an old one keeps its installation and URL. */
  ghost function StoredRow(row: Option<Analysis>, e: Event, t: Tenant, f: Findings): Analysis
    requires e.PullRequest?
  {
    match row
    case Some(was) => Analysis(t, was.installation, was.url, f)
    case None => Analysis(t, e.installation, e.url, f)
  }

  lemma StoresOne(db: Db, d: Delivery, t: Tenant, f: Findings)
    requires d.event.PullRequest? && Stores(db, d, t, f)
    ensures var e := d.event;
            var key := PrKey(e.repo.name, e.number, e.sha);
            AfterPullRequest(db, e, d.faults, d.findings).db
            == db.(analyses := db.analyses[key := StoredRow(Row(db.analyses, key), e, t, f)])
  {
    hide Resolved, TenantIsFound;
    FoundIsResolved(db, d.event.installation, d.event.repo.id, d.faults, t);
  }

  /** There is one tenant, and one set of findings. */
  lemma OneStored(db: Db, d: Delivery, t: Tenant, f: Findings, u: Tenant, g: Findings)
    requires d.event.PullRequest? && Stores(db, d, t, f) && Stores(db, d, u, g)
    ensures u == t && g == f
  {
  }

  lemma StoresNothing(db: Db, d: Delivery)
    requires d.event.PullRequest? && forall t, f :: !Stores(db, d, t, f)
    ensures AfterPullRequest(db, d.event, d.faults, d.findings).db == db
  {
    hide Resolved, TenantIsFound;
    var e := d.event;
    match Resolved(db, e.installation, e.repo.id, d.faults)
    case Done(t) =>
      FoundIsResolved(db, e.installation, e.repo.id, d.faults, t);
      if d.findings.Some? {
        assert !Stores(db, d, t, d.findings.value);
      }
    case _ =>
  }

  lemma RecordingStoresAlike(db: Db, d: Delivery, t: Tenant, f: Findings)
    requires d.event.PullRequest?
    ensures Stores(Recorded(db, d), d, t, f) <==> Stores(db, d, t, f)
  {
  }

  /** Main result: what a pull-request event stores. One row, under the
      repository's name, the number and the commit. If any condition fails,
      nothing. */
  lemma AnalysisIsStored(db: Db, d: Delivery)
    requires Accepted(db, d) && d.event.PullRequest?
    ensures var e, after := d.event, Served(db, d).0;
            var key := PrKey(e.repo.name, e.number, e.sha);
            after.repos == db.repos && after.installations == db.installations
            && after.suppressions == db.suppressions
            && (forall t, f :: Stores(db, d, t, f) ==>
                  after.analyses == db.analyses[key := StoredRow(Row(db.analyses, key), e, t, f)])
            && ((forall t, f :: !Stores(db, d, t, f)) ==> after.analyses == db.analyses)
  {
    hide Stores, AfterPullRequest, StoredRow;
    var start := Recorded(db, d);
    forall t, f ensures Stores(start, d, t, f) <==> Stores(db, d, t, f) {
      RecordingStoresAlike(db, d, t, f);
    }
    if t, f :| Stores(db, d, t, f) {
      StoresOne(start, d, t, f);
      forall u, g | Stores(db, d, u, g) ensures u == t && g == f {
        hide *;
        OneStored(db, d, t, f, u, g);
      }
    } else {
      StoresNothing(start, d);
    }
  }

  lemma RecordedResolves(db: Db, d: Delivery, installation: int, repo: int)
    ensures Resolved(Recorded(db, d), installation, repo, d.faults) == Resolved(db, installation, repo, d.faults)
  {
  }

  /** Main result: what a comment records. A created one on a pull request, with
      the directive, suppresses it for the tenant under the repository's name and
      number; the row keeps who asked first. */
  lemma SuppressionIsRecorded(db: Db, d: Delivery)
    requires Accepted(db, d) && d.event.IssueComment?
    ensures var e, after := d.event, Served(db, d).0;
            var asks := e.action == "created" && e.onPullRequest && Suppresses(e.body)
                        && SuppressionInsert !in d.faults;
            after.repos == db.repos && after.installations == db.installations && after.analyses == db.analyses
            && forall k :: Row(after.suppressions, k) ==
                 if k !in db.suppressions && asks && k.repo == e.repo.name && k.number == e.number && k.finding == ""
                    && TenantIsFound(db, e.installation, e.repo.id, d.faults, k.customer)
                 then Some(Suppression(e.repo.id, e.login)) else Row(db.suppressions, k)
  {
    hide Resolved, TenantIsFound, Suppresses, WithSuppression;
    var e := d.event;
    RecordedResolves(db, d, e.installation, e.repo.id);
    forall t ensures TenantIsFound(db, e.installation, e.repo.id, d.faults, t)
                <==> Resolved(db, e.installation, e.repo.id, d.faults) == Done(t) {
      FoundIsResolved(db, e.installation, e.repo.id, d.faults, t);
    }
    if Resolved(db, e.installation, e.repo.id, d.faults).Done? {
      var t := Resolved(db, e.installation, e.repo.id, d.faults).value;
      RowsWithSuppression(Recorded(db, d), SuppressionKey(t, e.repo.name, e.number, ""),
                          Suppression(e.repo.id, e.login));
    }
  }

  lemma RowsWithSuppression(db: Db, key: SuppressionKey, s: Suppression)
    ensures var after := WithSuppression(db, key, s);
            after == db.(suppressions := after.suppressions)
            && forall k :: Row(after.suppressions, k) ==
                 if k == key && k !in db.suppressions then Some(s) else Row(db.suppressions, k)
  {
  }

  /** The event header of each kind of body. */
  ghost function KindOf(e: Event): string {
    if e.PullRequest? then "pull_request"
    else if e.IssueComment? then "issue_comment"
    else if e.InstallationChange? then "installation"
    else if e.InstallationRepos? then "installation_repositories"
    else if e.Repository? then "repository"
    else if e.Push? then "push"
    else e.header
  }

  /** Main result: the answer, and that a request not accepted changes nothing;
      one that is records its id with the kind of event. */
  lemma RequestIsAnswered(db: Db, d: Delivery)
    ensures Served(db, d).1 == if !d.signed then 401 else if d.id != "" && Dedupe in d.faults then 500 else 200
    ensures !Accepted(db, d) ==> Served(db, d).0 == db
    ensures Accepted(db, d) ==>
              Served(db, d).0.deliveries == (if d.id == "" then db.deliveries
                                             else db.deliveries[d.id := KindOf(d.event)])
    ensures Accepted(db, d) <==> d.signed && (d.id == "" || (Dedupe !in d.faults && d.id !in db.deliveries))
    ensures d.event.Push? || d.event.Malformed? || d.event.Unhandled? ==>
              Served(db, d).0 == db.(deliveries := Served(db, d).0.deliveries)
  {
    if Accepted(db, d) {
      DispatchFrame(Recorded(db, d), d.event, d.faults, d.findings);
    }
  }

  // ---- the directive --------------------------------------------------------------------------

  /** body is before, blanks, the directive and more, the blanks starting a line. */
  ghost predicate HasDirective(body: string, before: string, blanks: string, rest: string) {
    body == before + blanks + "/uv suppress" + rest && Identifiers.Blanks(blanks) && TextLines.OneLine(blanks)
    && (before == "" || before[|before| - 1] == '\n')
  }

  lemma {:induction false} LeftIsBlank(s: string) returns (blanks: string)
    ensures s == blanks + Identifiers.TrimLeft(s) && Identifiers.Blanks(blanks)
  {
    if |s| > 0 && Identifiers.IsSpace(s[0]) {
      var more := LeftIsBlank(s[1..]);
      blanks := [s[0]] + more;
      assert s == [s[0]] + s[1..];
    } else {
      blanks := "";
    }
  }

  lemma {:induction false} RightIsPrefix(s: string)
    ensures Identifiers.TrimRight(s) <= s
  {
    if |s| > 0 && Identifiers.IsSpace(s[|s| - 1]) {
      RightIsPrefix(s[..|s| - 1]);
    }
  }

  /** Trimming on the right never cuts into what ends without a blank. */
  lemma {:induction false} PrefixStays(p: string, s: string)
    requires |p| > 0 && !Identifiers.IsSpace(p[|p| - 1]) && p <= s
    ensures p <= Identifiers.TrimRight(s)
  {
    if Identifiers.IsSpace(s[|s| - 1]) {
      assert p[|p| - 1] == s[|p| - 1];
      PrefixStays(p, s[..|s| - 1]);
    }
  }

  lemma DirectiveLine(line: string)
    ensures IsDirective(line)
       <==> exists blanks, rest :: Identifiers.Blanks(blanks) && line == blanks + "/uv suppress" + rest
  {
    var d := "/uv suppress";
    assert d[0] == '/' && d[|d| - 1] == 's';
    if blanks, rest :| Identifiers.Blanks(blanks) && line == blanks + d + rest {
      assert line == blanks + (d + rest) && (d + rest)[0] == '/';
      Identifiers.LeftBlanks(blanks, d + rest);
      assert d <= d + rest;
      PrefixStays(d, d + rest);
    }
    if IsDirective(line) {
      var blanks := LeftIsBlank(line);
      var u := Identifiers.TrimLeft(line);
      RightIsPrefix(u);
      assert d <= u;
      assert u == d + u[|d|..];
      assert line == blanks + d + u[|d|..];
    }
  }

  lemma LineSuppresses(body: string, before: string, blanks: string, rest: string)
    requires HasDirective(body, before, blanks, rest)
    ensures Suppresses(body)
  {
    var d := "/uv suppress";
    var tail := blanks + d + rest;
    assert TextLines.OneLine(blanks + d) by {
      assert TextLines.OneLine(d);
    }
    assert tail == (blanks + d) + rest;
    TextLines.SplitPrefixed(blanks + d, rest);
    var line := TextLines.Split(tail)[0];
    assert line == blanks + d + TextLines.Split(rest)[0];
    DirectiveLine(line);
    if before == "" {
      assert body == tail;
    } else {
      var head := before[..|before| - 1];
      assert body == head + "\n" + tail;
      TextLines.SplitAround(head, tail);
      assert TextLines.Split(body)[|TextLines.Split(head)|] == line;
    }
  }

  lemma {:induction false} LineIn(lines: seq<string>, i: nat) returns (before: string, behind: string)
    requires i < |lines|
    ensures TextLines.Join(lines) == before + lines[i] + behind
    ensures before == "" || before[|before| - 1] == '\n'
  {
    before, behind := "", "";
    if i > 0 {
      TextLines.JoinAround(lines[..i], lines[i..]);
      assert lines == lines[..i] + lines[i..];
      before := TextLines.Join(lines[..i]) + "\n";
    }
    if i + 1 < |lines| {
      TextLines.JoinAround([lines[i]], lines[i + 1..]);
      assert lines[i..] == [lines[i]] + lines[i + 1..];
      behind := "\n" + TextLines.Join(lines[i + 1..]);
    } else {
      assert lines[i..] == [lines[i]];
    }
  }

  /** Main result: which comments suppress. Those with `/uv suppress` at the start
      of a line, blanks before it and anything behind it allowed. */
  lemma SuppressesIff(body: string)
    ensures Suppresses(body) <==> exists before, blanks, rest :: HasDirective(body, before, blanks, rest)
  {
    if before, blanks, rest :| HasDirective(body, before, blanks, rest) {
      LineSuppresses(body, before, blanks, rest);
    }
    if Suppresses(body) {
      var lines := TextLines.Split(body);
      var i :| 0 <= i < |lines| && IsDirective(lines[i]);
      DirectiveLine(lines[i]);
      var blanks, rest :| Identifiers.Blanks(blanks) && lines[i] == blanks + "/uv suppress" + rest;
      var before, behind := LineIn(lines, i);
      TextLines.JoinSplit(body);
      TextLines.SplitIsOneLine(body);
      assert TextLines.OneLine(blanks) by {
        assert forall k :: 0 <= k < |blanks| ==> blanks[k] == lines[i][k];
      }
      assert body == before + blanks + "/uv suppress" + (rest + behind);
      assert HasDirective(body, before, blanks, rest + behind);
    }
  }
}
