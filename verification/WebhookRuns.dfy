/** Whole runs of the webhook (internal/githubapp/webhook.go, store.go) mixed
    with the writes of internal/api/github_app.go. */
module WebhookRuns {
  import opened SqlAst
  import opened GithubStore
  import opened Webhook
  import Identifiers
  import TextLines

  datatype Action =
    | Deliver(d: Delivery)
    | Claim(installation: int, customer: Tenant)
    | Connect(customer: Tenant, name: string, connected: bool)

  ghost function Apply(db: Db, a: Action): Db {
    match a
    case Deliver(d) => Served(db, d).0
    case Claim(i, c) => Claimed(db, i, c)
    case Connect(c, name, on) => WithConnection(db, c, name, on)
  }

  ghost function After(db: Db, run: seq<Action>): Db {
    if |run| == 0 then db else Apply(After(db, run[..|run| - 1]), run[|run| - 1])
  }

  // ---- one event ------------------------------------------------------------------------

  /** What repositories and installations coming and going leave alone. */
  ghost predicate Keeps(a: Db, b: Db) {
    a.deliveries == b.deliveries && a.analyses == b.analyses && a.suppressions == b.suppressions
    && (Linked(a) ==> Linked(b))
  }

  lemma {:induction false} WithReposKeeps(db: Db, repos: seq<RepoRef>, installation: int, faults: set<Stmt>)
    ensures Keeps(db, WithRepos(db, repos, installation, faults).db)
    decreases |repos|
  {
    if |repos| > 0 && RepoUpsert(repos[0].id) !in faults && installation in db.installations {
      WithReposKeeps(WithRepo(db, repos[0], installation), repos[1..], installation, faults);
    }
  }

  lemma {:induction false} WithoutReposKeeps(db: Db, repos: seq<int>, faults: set<Stmt>)
    ensures Keeps(db, WithoutRepos(db, repos, faults).db)
    decreases |repos|
  {
    if |repos| > 0 && RepoDelete(repos[0]) !in faults {
      WithoutReposKeeps(WithoutRepo(db, repos[0]), repos[1..], faults);
    }
  }

  lemma InstallationKeeps(db: Db, e: Event, faults: set<Stmt>)
    requires e.InstallationChange?
    ensures Keeps(db, AfterInstallation(db, e, faults).db)
  {
    var added := WithInstallation(db, e.id, e.login, e.accountType);
    assert Keeps(db, added);
    WithReposKeeps(added, e.repositories, e.id, faults);
    assert Keeps(db, WithoutInstallation(db, e.id));
    assert Keeps(db, WithSuspension(db, e.id, e.action == "suspend"));
  }

  lemma InstallationReposKeep(db: Db, e: Event, faults: set<Stmt>)
    requires e.InstallationRepos?
    ensures Keeps(db, AfterInstallationRepos(db, e, faults).db)
  {
    WithReposKeeps(db, e.added, e.id, faults);
    WithoutReposKeeps(WithRepos(db, e.added, e.id, faults).db, e.removed, faults);
  }

  lemma RepositoryKeeps(db: Db, e: Event, faults: set<Stmt>)
    requires e.Repository?
    ensures Keeps(db, AfterRepository(db, e, faults).db)
  {
  }

  /** Only pull requests touch analyses, only comments touch suppressions. */
  lemma DispatchFrame(db: Db, e: Event, faults: set<Stmt>, findings: Option<Findings>)
    ensures var h := Dispatched(db, e, faults, findings).db;
            h.deliveries == db.deliveries
            && (!e.PullRequest? ==> h.analyses == db.analyses)
            && (!e.IssueComment? ==> h.suppressions == db.suppressions)
            && (Linked(db) ==> Linked(h))
  {
    if e.InstallationChange? {
      InstallationKeeps(db, e, faults);
    } else if e.InstallationRepos? {
      InstallationReposKeep(db, e, faults);
    } else if e.Repository? {
      RepositoryKeeps(db, e, faults);
    }
  }

  /** Main result: a repo row never outlives the installation it names, so the
      foreign key is kept by every step of every run. */
  lemma {:induction false} ForeignKeyKept(db: Db, run: seq<Action>)
    requires Linked(db)
    ensures Linked(After(db, run))
  {
    if |run| > 0 {
      var before := After(db, run[..|run| - 1]);
      ForeignKeyKept(db, run[..|run| - 1]);
      match run[|run| - 1]
      case Deliver(d) => DispatchFrame(Recorded(before, d), d.event, d.faults, d.findings);
      case _ =>
    }
  }

  // ---- deliveries -------------------------------------------------------------------------

  lemma {:induction false} AfterAppend(db: Db, xs: seq<Action>, ys: seq<Action>)
    ensures After(After(db, xs), ys) == After(db, xs + ys)
    decreases |ys|
  {
    var n := |ys| - 1;
    if |ys| == 0 {
      assert xs + ys == xs;
    } else {
      AfterAppend(db, xs, ys[..n]);
      assert (xs + ys)[..|xs + ys| - 1] == xs + ys[..n];
    }
  }

  lemma AfterSplit(db: Db, run: seq<Action>, i: nat)
    requires i <= |run|
    ensures After(After(db, run[..i]), run[i..]) == After(db, run)
  {
    AfterAppend(db, run[..i], run[i..]);
    assert run[..i] + run[i..] == run;
  }

  lemma DeliveriesGrowOnce(db: Db, a: Action)
    ensures Apply(db, a).deliveries
         == if a.Deliver? && Accepted(db, a.d) then Recorded(db, a.d).deliveries else db.deliveries
  {
    match a
    case Deliver(d) => DispatchFrame(Recorded(db, d), d.event, d.faults, d.findings);
    case _ =>
  }

  lemma {:induction false} SeenStays(db: Db, run: seq<Action>, id: string)
    requires id in db.deliveries
    ensures id in After(db, run).deliveries
  {
    if |run| > 0 {
      SeenStays(db, run[..|run| - 1], id);
      DeliveriesGrowOnce(After(db, run[..|run| - 1]), run[|run| - 1]);
    }
  }

  /** Main result: in any run each nonempty delivery id is dispatched at most
      once; a redelivery of a dispatched one changes no table at all, whatever
      body it carries. */
  lemma DispatchedAtMostOnce(db: Db, run: seq<Action>, i: nat, j: nat)
    requires i < j < |run| && run[i].Deliver? && run[j].Deliver?
    requires run[i].d.id == run[j].d.id != ""
    requires Accepted(After(db, run[..i]), run[i].d)
    ensures !Accepted(After(db, run[..j]), run[j].d)
    ensures After(db, run[..j + 1]) == After(db, run[..j])
    ensures run[j].d.signed && Dedupe !in run[j].d.faults ==> Served(After(db, run[..j]), run[j].d).1 == OK
  {
    var id := run[i].d.id;
    assert run[..i + 1][..i] == run[..i];
    DeliveriesGrowOnce(After(db, run[..i]), run[i]);
    AfterSplit(db, run[..j], i + 1);
    assert run[..j][..i + 1] == run[..i + 1];
    SeenStays(After(db, run[..i + 1]), run[..j][i + 1..], id);
    assert run[..j + 1][..j] == run[..j];
  }

  // ---- provenance of analyses ----------------------------------------------------------

  /** In tables db the delivery stores this row: an accepted pull-request event
      of an analysed action, of a repository with a tenant, not suppressed for
      that tenant. */
  ghost predicate Writes(db: Db, d: Delivery, key: PrKey, row: Analysis) {
    Accepted(db, d) && d.event.PullRequest? && Analyzed(d.event.action) && key == KeyOf(d.event)
    && TenantOf(db, d.event.installation, d.event.repo.id) == Some(row.customer)
    && RepoLookup !in d.faults
    && (InstallationLookup in d.faults ==> HasOverride(db, d.event.repo.id))
    && (SuppressionLookup in d.faults
        || SuppressionKey(row.customer, key.repo, key.number, "") !in db.suppressions)
    && d.findings == Some(row.findings) && AnalysisUpsert !in d.faults
    && (if key in db.analyses
        then row.installation == db.analyses[key].installation && row.url == db.analyses[key].url
        else row.installation == d.event.installation && row.url == d.event.url)
  }

  /** Recording the delivery id changes nothing the event looks at. */
  lemma RecordingIsNeutral(db: Db, d: Delivery)
    requires d.event.PullRequest?
    ensures AfterPullRequest(Recorded(db, d), d.event, d.faults, d.findings).db.analyses
         == AfterPullRequest(db, d.event, d.faults, d.findings).db.analyses
  {
    assert Resolved(Recorded(db, d), d.event.installation, d.event.repo.id, d.faults)
        == Resolved(db, d.event.installation, d.event.repo.id, d.faults);
  }

  lemma PullRequestStores(db: Db, d: Delivery)
    requires Accepted(db, d) && d.event.PullRequest?
    ensures var after := AfterPullRequest(db, d.event, d.faults, d.findings).db.analyses;
            var key := KeyOf(d.event);
            after == db.analyses
            || (key in after && after == db.analyses[key := after[key]] && Writes(db, d, key, after[key]))
  {
  }

  lemma WrittenIsStored(db: Db, d: Delivery, row: Analysis)
    requires d.event.PullRequest? && Writes(db, d, KeyOf(d.event), row)
    ensures var after := AfterPullRequest(db, d.event, d.faults, d.findings).db.analyses;
            after == db.analyses[KeyOf(d.event) := row]
  {
  }

  /** An accepted pull-request event stores exactly the row it Writes. */
  lemma PullRequestWrites(db: Db, d: Delivery, key: PrKey, row: Analysis)
    requires Accepted(db, d) && d.event.PullRequest?
    ensures var after := AfterPullRequest(Recorded(db, d), d.event, d.faults, d.findings).db.analyses;
            (Writes(db, d, key, row) ==> key in after && after[key] == row)
            && (key in after && after[key] == row ==>
                  (key in db.analyses && db.analyses[key] == row) || Writes(db, d, key, row))
            && (key in db.analyses ==> key in after)
  {
    RecordingIsNeutral(db, d);
    PullRequestStores(db, d);
    if Writes(db, d, key, row) {
      WrittenIsStored(db, d, row);
    }
  }

  /** Main result: a step stores a row exactly when it Writes it; every other
      row stays as it was. */
  lemma StepWrites(db: Db, a: Action, key: PrKey, row: Analysis)
    ensures a.Deliver? && Writes(db, a.d, key, row)
        ==> key in Apply(db, a).analyses && Apply(db, a).analyses[key] == row
    ensures key in Apply(db, a).analyses && Apply(db, a).analyses[key] == row
        ==> (key in db.analyses && db.analyses[key] == row) || (a.Deliver? && Writes(db, a.d, key, row))
    ensures key in db.analyses ==> key in Apply(db, a).analyses
  {
    if a.Deliver? && Accepted(db, a.d) {
      if a.d.event.PullRequest? {
        PullRequestWrites(db, a.d, key, row);
      } else {
        DispatchFrame(Recorded(db, a.d), a.d.event, a.d.faults, a.d.findings);
      }
    }
  }

  ghost predicate WrittenIn(db: Db, run: seq<Action>, i: nat, key: PrKey, row: Analysis)
    requires i < |run|
  {
    run[i].Deliver? && Writes(After(db, run[..i]), run[i].d, key, row)
  }

  /** Main result: after any run, from any tables, an analysis is either one
      that was there before or was stored by one accepted event of the run, for
      the tenant that event's repository resolved to at that moment. No
      analysis is ever stored without a tenant. */
  lemma {:induction false} AnalysisProvenance(db: Db, run: seq<Action>, key: PrKey)
    requires key in After(db, run).analyses
    ensures (key in db.analyses && db.analyses[key] == After(db, run).analyses[key])
         || exists i :: 0 <= i < |run| && WrittenIn(db, run, i, key, After(db, run).analyses[key])
  {
    if |run| > 0 {
      var n := |run| - 1;
      var before := After(db, run[..n]);
      var row := After(db, run).analyses[key];
      StepWrites(before, run[n], key, row);
      if run[n].Deliver? && Writes(before, run[n].d, key, row) {
        assert WrittenIn(db, run, n, key, row);
      } else {
        AnalysisProvenance(db, run[..n], key);
        if i :| 0 <= i < n && WrittenIn(db, run[..n], i, key, row) {
          assert run[..n][..i] == run[..i];
          assert WrittenIn(db, run, i, key, row);
        }
      }
    }
  }

  // ---- suppression ------------------------------------------------------------------------

  lemma SuppressionsGrow(db: Db, a: Action)
    ensures forall k :: k in db.suppressions ==> k in Apply(db, a).suppressions
  {
    if a.Deliver? {
      DispatchFrame(Recorded(db, a.d), a.d.event, a.d.faults, a.d.findings);
    }
  }

  lemma {:induction false} SuppressionStays(db: Db, run: seq<Action>, k: SuppressionKey)
    requires k in db.suppressions
    ensures k in After(db, run).suppressions
  {
    if |run| > 0 {
      SuppressionStays(db, run[..|run| - 1], k);
      SuppressionsGrow(After(db, run[..|run| - 1]), run[|run| - 1]);
    }
  }

  ghost predicate LookupsWork(run: seq<Action>) {
    forall i :: 0 <= i < |run| && run[i].Deliver? ==> SuppressionLookup !in run[i].d.faults
  }

  /** Main result: once a pull request is suppressed for a tenant under a
      repository name, no run in which the suppression query works stores
      another analysis of it for that tenant. */
  lemma SuppressionIsFinal(db: Db, run: seq<Action>, customer: Tenant, key: PrKey)
    requires SuppressionKey(customer, key.repo, key.number, "") in db.suppressions && LookupsWork(run)
    requires key in After(db, run).analyses && After(db, run).analyses[key].customer == customer
    ensures key in db.analyses && db.analyses[key] == After(db, run).analyses[key]
  {
    AnalysisProvenance(db, run, key);
    var row := After(db, run).analyses[key];
    if i :| 0 <= i < |run| && WrittenIn(db, run, i, key, row) {
      SuppressionStays(db, run[..i], SuppressionKey(customer, key.repo, key.number, ""));
      assert false;
    }
  }

  /** An accepted `/uv suppress` comment on a pull request, by name and number. */
  ghost predicate SuppressedBy(db: Db, d: Delivery, customer: Tenant, repo: string, number: int) {
    Accepted(db, d) && d.event.IssueComment? && d.event.action == "created" && d.event.onPullRequest
    && Suppresses(d.event.body) && d.event.repo.name == repo && d.event.number == number
    && TenantOf(db, d.event.installation, d.event.repo.id) == Some(customer)
    && d.faults == {}
  }

  /** Main result: the comment at step i settles the rest of the run. */
  lemma CommentSettlesRun(db: Db, run: seq<Action>, i: nat, customer: Tenant, key: PrKey)
    requires i < |run| && run[i].Deliver?
    requires SuppressedBy(After(db, run[..i]), run[i].d, customer, key.repo, key.number)
    requires LookupsWork(run[i + 1..])
    requires key in After(db, run).analyses && After(db, run).analyses[key].customer == customer
    ensures key in After(db, run[..i]).analyses
         && After(db, run[..i]).analyses[key] == After(db, run).analyses[key]
  {
    var before := After(db, run[..i]);
    assert run[..i + 1][..i] == run[..i];
    AfterSplit(db, run, i + 1);
    assert SuppressionKey(customer, key.repo, key.number, "") in Apply(before, run[i]).suppressions;
    SuppressionIsFinal(Apply(before, run[i]), run[i + 1..], customer, key);
    DispatchFrame(Recorded(before, run[i].d), run[i].d.event, run[i].d.faults, run[i].d.findings);
  }

  /** When a suppression silences an otherwise complete event: exactly when it
      was recorded under the name the event carries and the query for it works. */
  lemma SilencedIff(db: Db, d: Delivery, customer: Tenant)
    requires Accepted(db, d) && d.event.PullRequest? && Analyzed(d.event.action) && d.findings.Some?
    requires TenantOf(db, d.event.installation, d.event.repo.id) == Some(customer)
    requires d.faults <= {SuppressionLookup}
    ensures !(exists row :: Writes(db, d, KeyOf(d.event), row))
       <==> SuppressionLookup !in d.faults
            && SuppressionKey(customer, d.event.repo.name, d.event.number, "") in db.suppressions
  {
    var key := KeyOf(d.event);
    var inserted := Analysis(customer, d.event.installation, d.event.url, d.findings.value);
    var row := WithAnalysis(db, key, inserted).analyses[key];
    if SuppressionLookup in d.faults || SuppressionKey(customer, key.repo, key.number, "") !in db.suppressions {
      assert Writes(db, d, key, row);
    }
  }

  /** A run that renames a repository between a suppression of one of its pull
      requests and the next push to it. */
  ghost predicate RenameBetween(db: Db, run: seq<Action>, t: Tenant, row: Analysis) {
    |run| == 3 && (forall i :: 0 <= i < 3 ==> run[i].Deliver? && run[i].d.faults == {})
    && run[0].d.event.IssueComment? && run[2].d.event.PullRequest?
    && run[0].d.event.repo.id == run[2].d.event.repo.id
    && SuppressedBy(db, run[0].d, t, run[0].d.event.repo.name, run[2].d.event.number)
    && WrittenIn(db, run, 2, KeyOf(run[2].d.event), row) && row.customer == t
  }

  ghost function RenameDb(t: Tenant, name: string): Db {
    Db(map[1 := Installation("o", "Organization", Some(t), false)],
       map[7 := Repo(1, name, Some(t), true)], map[], map[], map[])
  }

  ghost function Comment(body: string): Delivery {
    Delivery(true, "", IssueComment("created", 5, true, body, "u", RepoRef(7, "o/a"), 1), {}, None)
  }

  ghost function Rename(): Delivery {
    Delivery(true, "", Repository("renamed", RepoRef(7, "o/b"), 1), {}, None)
  }

  ghost function PushTo(f: Findings): Delivery {
    Delivery(true, "", PullRequest("synchronize", 5, "url", "sha", RepoRef(7, "o/b"), 1), {}, Some(f))
  }

  ghost function SuppressedDb(t: Tenant, name: string): Db {
    WithSuppression(RenameDb(t, name), SuppressionKey(t, "o/a", 5, ""), Suppression(7, "u"))
  }

  lemma CommentStep(t: Tenant, body: string)
    requires Suppresses(body)
    ensures SuppressedBy(RenameDb(t, "o/a"), Comment(body), t, "o/a", 5)
    ensures Served(RenameDb(t, "o/a"), Comment(body)).0 == SuppressedDb(t, "o/a")
  {
  }

  lemma RenameStep(t: Tenant)
    ensures Served(SuppressedDb(t, "o/a"), Rename()).0 == SuppressedDb(t, "o/b")
  {
    assert SuppressedDb(t, "o/a").repos[7 := Repo(1, "o/b", Some(t), true)] == SuppressedDb(t, "o/b").repos;
  }

  lemma PushStep(t: Tenant, f: Findings)
    ensures Writes(SuppressedDb(t, "o/b"), PushTo(f), PrKey("o/b", 5, "sha"), Analysis(t, 1, "url", f))
  {
  }

  lemma AfterTwo(db: Db, run: seq<Action>)
    requires |run| >= 2
    ensures After(db, run[..0]) == db && After(db, run[..2]) == Apply(Apply(db, run[0]), run[1])
  {
    assert run[..2][..1] == run[..1] && run[..1][..0] == [];
  }

  /** One line is enough of a comment. */
  lemma DirectiveLineSuppresses(line: string)
    requires TextLines.OneLine(line) && IsDirective(line)
    ensures Suppresses(line)
  {
    TextLines.SplitOneLine(line);
    assert IsDirective(TextLines.Split(line)[0]);
  }

  /** The bare directive is such a line. */
  lemma DirectiveSuppresses()
    ensures Suppresses(DIRECTIVE)
  {
    hide Suppresses;
    assert DIRECTIVE[0] == '/' && DIRECTIVE[|DIRECTIVE| - 1] == 's';
    TrimKeeps(DIRECTIVE);
    DirectiveLineSuppresses(DIRECTIVE);
  }

  lemma TrimKeeps(s: string)
    requires |s| > 0 && !Identifiers.IsSpace(s[0]) && !Identifiers.IsSpace(s[|s| - 1])
    ensures Trim(s) == s
  {
  }

  /** The suppression is stored under the repository's name, not its id: after a
      `/uv suppress` and a rename the same repository's same pull request is
      analysed again. */
  lemma RenameEscapesSuppression(t: Tenant, f: Findings)
    ensures exists db: Db, run: seq<Action>, row: Analysis :: RenameBetween(db, run, t, row)
  {
    hide Suppresses;
    DirectiveSuppresses();
    RenameEscapesAny(t, f, DIRECTIVE);
  }

  lemma RenameEscapesAny(t: Tenant, f: Findings, body: string)
    requires Suppresses(body)
    ensures exists db: Db, run: seq<Action>, row: Analysis :: RenameBetween(db, run, t, row)
  {
    var db, row := RenameDb(t, "o/a"), Analysis(t, 1, "url", f);
    var run := [Deliver(Comment(body)), Deliver(Rename()), Deliver(PushTo(f))];
    CommentStep(t, body);
    RenameStep(t);
    PushStep(t, f);
    AfterTwo(db, run);
    assert WrittenIn(db, run, 2, KeyOf(run[2].d.event), row);
    assert RenameBetween(db, run, t, row);
  }

  // ---- failures ----------------------------------------------------------------------------

  /** store.go promises that a database error while resolving the tenant makes
      GitHub retry. The id is recorded before the dispatch and the answer is 200
      all the same, so the event is lost: no redelivery in the rest of any run
      changes anything. */
  lemma FailedDispatchIsNeverRetried(db: Db, run: seq<Action>, i: nat, j: nat)
    requires i < j < |run| && run[i].Deliver? && run[j].Deliver?
    requires Accepted(After(db, run[..i]), run[i].d) && run[i].d.id == run[j].d.id != ""
    requires run[i].d.event.PullRequest?
    requires var d := run[i].d;
             Resolved(After(db, run[..i]), d.event.installation, d.event.repo.id, d.faults) == DbError
    ensures Served(After(db, run[..i]), run[i].d) == (Recorded(After(db, run[..i]), run[i].d), OK)
    ensures After(db, run[..j + 1]) == After(db, run[..j])
  {
    DispatchedAtMostOnce(db, run, i, j);
  }

  /** Main result: a redelivery is processed exactly when the dedupe statement of
      the first delivery failed; whatever else failed, the event is lost. */
  lemma RetryPossibleIff(db: Db, d: Delivery, again: Delivery)
    requires d.signed && d.id == again.id != "" && d.id !in db.deliveries
    requires again.signed && again.faults == {}
    ensures Accepted(Served(db, d).0, again) <==> Dedupe in d.faults
  {
    DispatchFrame(Recorded(db, d), d.event, d.faults, d.findings);
  }
}
