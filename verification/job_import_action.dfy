/**
 * The first-generation JobImportAction (`/job-import`): a page that lists the
 * jobs of a remote Jenkins (`doQuery`) and then imports the selected ones into
 * the local Jenkins (`doImport`), recording the outcome of each in a ledger.
 *
 * The action's two collections are values here: `remoteJobs` is the iteration
 * order of its `TreeSet<RemoteJob>`, and the ledger, a `TreeMap` ordered by
 * job name, is a map keyed by the job's name. Both belong to the action alone.
 */
module JobImportAction {
  import opened Wrappers
  import opened JavaStrings
  import opened ItemText
  import opened ImportMessages
  import opened LegacyJobs
  import opened LegacyImportStatus
  import opened LocalJenkins

  /** What `doQuery` appends to the remote url: every job's name, url and description. */
  const JobsQuery: string := "/api/xml?tree=jobs[name,url,description]"

  /** What `doImport` appends to a job's url to fetch its configuration. */
  const ConfigXml: string := "/config.xml"

  /** The form fields `doQuery` reads (`_.remoteUrl`, `_.username`, `_.password`, `_.credentialId`). */
  datatype QueryForm = QueryForm(
    remoteUrl: Option<string>,
    username: Option<string>,
    password: Option<string>,
    credentialId: Option<string>)

  /** A user name and password, either of which may be null. */
  type Login = (Option<string>, Option<string>)

  /**
   * The calls `doImport` makes outside the action: fetching a url with the
   * login, `createProjectFromXML`, and `Item.delete` of the item of a name.
   */
  datatype Host = Host(
    fetch: (string, Option<string>, Option<string>) -> Result<string>,
    create: (Option<string>, string) -> Creation,
    delete: string -> Deletion)

  /** The status ledger: one entry per job name. */
  type Ledger = map<Option<string>, StatusInfo>

  // ---------------------------------------------------------------------------
  // doQuery
  // ---------------------------------------------------------------------------

  /**
   * The login `doQuery` keeps: the stored credential's user name and password
   * when a credential id is given and found, the form's otherwise.
   */
  function LoginOf(form: QueryForm, lookup: string -> Option<(string, string)>): (r: Login)
    ensures !IsEmpty(form.credentialId) && lookup(form.credentialId.value).Some? ==>
              r.0.Some? && r.1.Some? && (r.0.value, r.1.value) == lookup(form.credentialId.value).value
    ensures IsEmpty(form.credentialId) || lookup(form.credentialId.value).None? ==> r == (form.username, form.password)
  {
    if !IsEmpty(form.credentialId) && lookup(form.credentialId.value).Some? then
      (Some(lookup(form.credentialId.value).value.0), Some(lookup(form.credentialId.value).value.1))
    else
      (form.username, form.password)
  }

  /** `new RemoteJob(text(job, "name"), text(job, "url"), desc != null ? desc : "")`. */
  function Listed(e: Element): (r: JobInfo)
    ensures r.description.Some?
    ensures r.name.Some? <==> |Tagged(e.descendants, "name")| == 1
    ensures r.url.Some? <==> |Tagged(e.descendants, "url")| == 1
    ensures |Tagged(e.descendants, "description")| != 1 ==> r.description == Some("")
  {
    var desc := Text(e, "description");
    JobInfo(Text(e, "name"), Text(e, "url"), Some(if desc.Some? then desc.value else ""))
  }

  /**
   * The listing loop of `doQuery`: each listed job is added to the set in turn;
   * the first exception (a null name met once the set is non-empty) ends the
   * loop, and the jobs added so far stay.
   */
  function Collect(jobs: seq<JobInfo>, listed: seq<Element>): (r: seq<JobInfo>)
    ensures forall y :: y in jobs ==> y in r
    ensures forall y :: y in r ==> y in jobs || exists k :: 0 <= k < |listed| && y == Listed(listed[k])
    decreases |listed|
  {
    if listed == [] then jobs
    else
      match AddJob(jobs, Listed(listed[0]))
      case Failure(_) => jobs
      case Success(jobs1) => Collect(jobs1, listed[1..])
  }

  /**
   * The jobs `doQuery` leaves: none for an empty remote url or a listing that
   * cannot be fetched or parsed; otherwise what the listing loop collected.
   * Every job found has a non-null description and comes from one listed element.
   */
  function Query(remoteUrl: Option<string>, login: Login,
                 load: (string, Option<string>, Option<string>) -> Result<seq<Element>>): (r: seq<JobInfo>)
    ensures JobSet(r)
    ensures IsEmpty(remoteUrl) ==> r == []
    ensures r != [] ==> !IsEmpty(remoteUrl) && load(remoteUrl.value + JobsQuery, login.0, login.1).Success?
    ensures forall y :: y in r ==>
              y.description.Some? &&
              exists k :: 0 <= k < |load(remoteUrl.value + JobsQuery, login.0, login.1).value| &&
                          y == Listed(load(remoteUrl.value + JobsQuery, login.0, login.1).value[k])
  {
    if IsEmpty(remoteUrl) then []
    else
      match load(remoteUrl.value + JobsQuery, login.0, login.1)
      case Failure(_) => []
      case Success(listed) =>
        CollectIsListing([], listed);
        Collect([], listed)
  }

  /**
   * The listing loop keeps a set of jobs, keeps every job already in it, and
   * adds only jobs built from listed elements.
   */
  lemma {:induction false} CollectIsListing(jobs: seq<JobInfo>, listed: seq<Element>)
    requires JobSet(jobs)
    ensures JobSet(Collect(jobs, listed))
    ensures forall y :: y in jobs ==> y in Collect(jobs, listed)
    ensures forall y :: y in Collect(jobs, listed) ==>
              y in jobs || exists k :: 0 <= k < |listed| && y == Listed(listed[k])
    decreases |listed|
  {
    if listed != [] {
      var added := AddJob(jobs, Listed(listed[0]));
      if added.Success? {
        AddAllIsUnion(jobs, [Listed(listed[0])], added.value);
        CollectIsListing(added.value, listed[1..]);
        forall y | y in Collect(jobs, listed)
          ensures y in jobs || exists k :: 0 <= k < |listed| && y == Listed(listed[k])
        {
          if y !in added.value {
            var k :| 0 <= k < |listed[1..]| && y == Listed(listed[1..][k]);
            assert y == Listed(listed[k + 1]);
          } else if y !in jobs {
            assert y == Listed(listed[0]);
          }
        }
      }
    }
  }

  /** The jobs built from a listing, in listing order. */
  function ListedJobs(listed: seq<Element>): (r: seq<JobInfo>)
    ensures |r| == |listed|
    ensures forall k :: 0 <= k < |listed| ==> r[k] == Listed(listed[k])
  {
    seq(|listed|, k requires 0 <= k < |listed| => Listed(listed[k]))
  }

  /**
   * The loop stops only at an exception: when adding every listed job succeeds,
   * the loop collects exactly what `addAll` of the whole listing would.
   */
  lemma {:induction false} CollectAgreesWithAddAll(jobs: seq<JobInfo>, listed: seq<Element>, r: seq<JobInfo>)
    requires AddAll(jobs, ListedJobs(listed)) == Success(r)
    ensures Collect(jobs, listed) == r
    decreases |listed|
  {
    if listed != [] {
      var t := ListedJobs(listed);
      assert t[0] == Listed(listed[0]);
      assert t[1..] == ListedJobs(listed[1..]);
      CollectAgreesWithAddAll(AddJob(jobs, t[0]).value, listed[1..], r);
    }
  }

  /**
   * A listed job without a name, met once the set is non-empty, ends the loop:
   * it and every job listed after it are dropped.
   */
  lemma UnnamedJobEndsListing(jobs: seq<JobInfo>, listed: seq<Element>)
    requires jobs != [] && listed != [] && Text(listed[0], "name").None?
    ensures Collect(jobs, listed) == jobs
  {
  }

  /** The listing loop of `doQuery`, over the `job` elements of the fetched document. */
  method ListJobs(listed: seq<Element>) returns (jobs: seq<JobInfo>)
    ensures JobSet(jobs)
    ensures jobs == Collect([], listed)
  {
    jobs := [];
    var i := 0;
    while i < |listed|
      invariant 0 <= i <= |listed|
      invariant JobSet(jobs)
      invariant Collect(jobs, listed[i..]) == Collect([], listed)
    {
      var added := AddJob(jobs, Listed(listed[i]));
      assert listed[i..][0] == listed[i] && listed[i..][1..] == listed[i + 1..];
      if added.Failure? {
        break;
      }
      AddJobKeepsSet(jobs, Listed(listed[i]), added.value);
      jobs := added.value;
      i := i + 1;
    }
  }

  // ---------------------------------------------------------------------------
  // getRemoteJobs(String)
  // ---------------------------------------------------------------------------

  /** The position of the first job whose url is `jobUrl`; `|jobs|` when there is none. */
  function FirstWithUrl(jobs: seq<JobInfo>, jobUrl: string): (r: nat)
    ensures r <= |jobs|
    ensures forall m :: 0 <= m < r ==> jobs[m].url != Some(jobUrl)
    ensures r < |jobs| ==> jobs[r].url == Some(jobUrl)
    decreases |jobs|
  {
    if jobs == [] then 0
    else if jobs[0].url == Some(jobUrl) then 0
    else 1 + FirstWithUrl(jobs[1..], jobUrl)
  }

  /**
   * `getRemoteJobs(jobUrl)`: null for an empty url; otherwise the first job, in
   * set order, whose url equals it exactly; null when there is none.
   */
  function FindByUrl(jobs: seq<JobInfo>, jobUrl: string): (r: Option<JobInfo>)
    ensures r.Some? <==> jobUrl != "" && exists k :: 0 <= k < |jobs| && jobs[k].url == Some(jobUrl)
    ensures r.Some? ==> r.value in jobs && r.value.url == Some(jobUrl)
    ensures r.Some? ==> exists k :: 0 <= k < |jobs| && jobs[k] == r.value &&
                                   forall m :: 0 <= m < k ==> jobs[m].url != Some(jobUrl)
  {
    if jobUrl == "" then None
    else
      var k := FirstWithUrl(jobs, jobUrl);
      if k < |jobs| then Some(jobs[k]) else None
  }

  // ---------------------------------------------------------------------------
  // doImport
  // ---------------------------------------------------------------------------

  /** The state `doImport` threads through its loop: the ledger, the local items, an escaped IOException. */
  datatype Progress = Progress(ledger: Ledger, items: set<string>, escaped: Option<string>)

  /**
   * The `try` block of `doImport` for a job with no local namesake: fetch the
   * configuration, create the item, record success; any exception records the
   * exception status and rolls back the item of that name.
   */
  function Transfer(job: JobInfo, items: set<string>, login: Login, host: Host): (r: Attempt)
    requires !Present(items, job.name)
    ensures r.status == Succeeded <==>
              host.fetch(Render(job.url) + ConfigXml, login.0, login.1).Success? &&
              host.create(job.name, host.fetch(Render(job.url) + ConfigXml, login.0, login.1).value).Created?
    ensures r.status == Succeeded ==> r.items == AfterCreate(items, job.name, Created) && r.escaped.None?
    ensures r.status != Succeeded ==> r.status.FailedException?
    ensures host.fetch(Render(job.url) + ConfigXml, login.0, login.1).Failure? ==>
              r == Attempt(FailedException(Some(host.fetch(Render(job.url) + ConfigXml, login.0, login.1).error)), items, None)
    ensures r.escaped.Some? ==> Present(r.items, job.name) && host.delete(job.name.value).DeleteFailed?
    ensures r.status != Succeeded && r.escaped.None? ==> !Present(r.items, job.name) || !host.delete(job.name.value).Deleted?
    ensures forall n :: Some(n) != job.name ==> (n in r.items <==> n in items)
  {
    match host.fetch(Render(job.url) + ConfigXml, login.0, login.1)
    case Failure(e) => Rollback(job.name, FailedException(Some(e)), items, host.delete)
    case Success(body) =>
      var c := host.create(job.name, body);
      if c.Created? then Attempt(Succeeded, AfterCreate(items, job.name, c), None)
      else Rollback(job.name, FailedException(c.message), AfterCreate(items, job.name, c), host.delete)
  }

  /**
   * The `try` block of `doImport` and its `catch`: fetch the configuration with
   * the login, create the item; on an exception, roll the item back.
   */
  method TryImport(job: JobInfo, items: set<string>, login: Login, host: Host) returns (a: Attempt)
    requires !Present(items, job.name)
    ensures a == Transfer(job, items, login, host)
  {
    var fetched := host.fetch(Render(job.url) + ConfigXml, login.0, login.1);
    if fetched.Failure? {
      return Rollback(job.name, FailedException(Some(fetched.error)), items, host.delete);
    }
    var c := host.create(job.name, fetched.value);
    if c.Created? {
      a := Attempt(Succeeded, AfterCreate(items, job.name, c), None);
    } else {
      a := Rollback(job.name, FailedException(c.message), AfterCreate(items, job.name, c), host.delete);
    }
  }

  /** Every entry of the ledger is keyed by its job's name, holds a discovered job, and has a status. */
  predicate EntryOk(jobs: seq<JobInfo>, name: Option<string>, entry: StatusInfo)
  {
    entry.job.Some? && entry.job.value.name == name && entry.job.value in jobs && entry.status.Some?
  }

  predicate LedgerOk(jobs: seq<JobInfo>, ledger: Ledger)
  {
    forall n :: n in ledger ==> EntryOk(jobs, n, ledger[n])
  }

  /**
   * One pass of the `doImport` loop for one `jobUrl`: an unknown url is skipped;
   * otherwise the job gets a ledger entry the first time it is seen, and its
   * status is set: the duplicate status when a local item has its name, the
   * outcome of the transfer otherwise. Only that entry and that name change.
   */
  function ImportOne(p: Progress, jobs: seq<JobInfo>, jobUrl: string, login: Login, host: Host): (r: Progress)
    ensures FindByUrl(jobs, jobUrl).None? ==> r == p
    ensures FindByUrl(jobs, jobUrl).Some? ==>
              var name := FindByUrl(jobs, jobUrl).value.name;
              r.ledger.Keys == p.ledger.Keys + {name} &&
              (name in p.ledger ==> r.ledger[name].job == p.ledger[name].job) &&
              (forall n :: n in p.ledger && n != name ==> r.ledger[n] == p.ledger[n]) &&
              (forall n :: Some(n) != name ==> (n in r.items <==> n in p.items))
    ensures LedgerOk(jobs, p.ledger) ==> LedgerOk(jobs, r.ledger)
  {
    match FindByUrl(jobs, jobUrl)
    case None => p
    case Some(job) =>
      var ledger := if job.name in p.ledger then p.ledger else p.ledger[job.name := StatusInfo(Some(job), None)];
      if Present(p.items, job.name) then
        Progress(ledger[job.name := ledger[job.name].(status := Some(FailedDuplicate))], p.items, None)
      else
        var a := Transfer(job, p.items, login, host);
        Progress(ledger[job.name := ledger[job.name].(status := Some(a.status))], a.items, a.escaped)
  }

  /** The `doImport` loop over the `jobUrl` values, which an escaping IOException ends. */
  function ImportAll(p: Progress, jobs: seq<JobInfo>, jobUrls: seq<string>, login: Login, host: Host): (r: Progress)
    ensures LedgerOk(jobs, p.ledger) ==> LedgerOk(jobs, r.ledger)
    ensures p.escaped.Some? ==> r == p
    decreases |jobUrls|
  {
    if jobUrls == [] || p.escaped.Some? then p
    else ImportAll(ImportOne(p, jobs, jobUrls[0], login, host), jobs, jobUrls[1..], login, host)
  }

  /**
   * `doImport`: the ledger is cleared; nothing more happens unless jobs were
   * discovered and `jobUrl` parameters were sent.
   */
  function Import(jobs: seq<JobInfo>, jobUrls: Option<seq<string>>, items: set<string>, login: Login, host: Host): (r: Progress)
    ensures LedgerOk(jobs, r.ledger)
    ensures jobs == [] || jobUrls.None? ==> r == Progress(map[], items, None)
  {
    if jobs != [] && jobUrls.Some? then ImportAll(Progress(map[], items, None), jobs, jobUrls.value, login, host)
    else Progress(map[], items, None)
  }

  /**
   * A job whose name a local item already has gets the duplicate status and
   * nothing is fetched, created or deleted: the outcome is the same whatever
   * the remote and local calls would do.
   */
  lemma DuplicateFetchesNothing(p: Progress, jobs: seq<JobInfo>, jobUrl: string, login: Login, h1: Host, h2: Host)
    requires FindByUrl(jobs, jobUrl).Some? && Present(p.items, FindByUrl(jobs, jobUrl).value.name)
    ensures ImportOne(p, jobs, jobUrl, login, h1) == ImportOne(p, jobs, jobUrl, login, h2)
    ensures var r := ImportOne(p, jobs, jobUrl, login, h1);
            r.items == p.items && r.escaped.None? &&
            r.ledger[FindByUrl(jobs, jobUrl).value.name].status == Some(FailedDuplicate)
  {
  }

  /**
   * The status of one pass: success exactly when the name was free, the
   * configuration was fetched and `createProjectFromXML` returned; an exception
   * status otherwise, after which no item of that name remains unless its
   * deletion was interrupted or failed.
   */
  lemma ImportOneOutcome(p: Progress, jobs: seq<JobInfo>, jobUrl: string, login: Login, host: Host)
    requires FindByUrl(jobs, jobUrl).Some?
    ensures var job := FindByUrl(jobs, jobUrl).value;
            var r := ImportOne(p, jobs, jobUrl, login, host);
            var fetched := host.fetch(Render(job.url) + ConfigXml, login.0, login.1);
            (r.ledger[job.name].status == Some(Succeeded) <==>
               !Present(p.items, job.name) && fetched.Success? && host.create(job.name, fetched.value).Created?) &&
            (r.ledger[job.name].status == Some(Succeeded) ==> r.items == AfterCreate(p.items, job.name, Created)) &&
            (!Present(p.items, job.name) && r.ledger[job.name].status != Some(Succeeded) ==>
               r.ledger[job.name].status.value.FailedException? &&
               (Present(r.items, job.name) ==> !host.delete(job.name.value).Deleted?))
  {
  }

  /**
   * What the import keeps true of the items that existed before it: none of
   * them is removed, each of their ledger entries has the duplicate status, and
   * every entry with the success status names an item the import created.
   */
  ghost predicate Respects(before: set<string>, p: Progress)
  {
    before <= p.items &&
    (forall n :: n in p.ledger && n.Some? && n.value in before ==> p.ledger[n].status == Some(FailedDuplicate)) &&
    (forall n :: n in p.ledger && n.Some? && p.ledger[n].status == Some(Succeeded) ==>
                   n.value in p.items && n.value !in before)
  }

  lemma ImportOneRespects(before: set<string>, p: Progress, jobs: seq<JobInfo>, jobUrl: string, login: Login, host: Host)
    requires Respects(before, p)
    ensures Respects(before, ImportOne(p, jobs, jobUrl, login, host))
  {
    var r := ImportOne(p, jobs, jobUrl, login, host);
    if FindByUrl(jobs, jobUrl).Some? {
      var name := FindByUrl(jobs, jobUrl).value.name;
      ImportOneOutcome(p, jobs, jobUrl, login, host);
      if !Present(p.items, name) {
        assert forall n :: n in before ==> n in r.items;
      }
    }
  }

  lemma {:induction false} ImportAllRespects(before: set<string>, p: Progress, jobs: seq<JobInfo>, jobUrls: seq<string>, login: Login, host: Host)
    requires Respects(before, p)
    ensures Respects(before, ImportAll(p, jobs, jobUrls, login, host))
    decreases |jobUrls|
  {
    if jobUrls != [] && p.escaped.None? {
      ImportOneRespects(before, p, jobs, jobUrls[0], login, host);
      ImportAllRespects(before, ImportOne(p, jobs, jobUrls[0], login, host), jobs, jobUrls[1..], login, host);
    }
  }

  /**
   * An import never overwrites or removes an existing local item: every item
   * present before is present after, a job whose name was taken is recorded as
   * a duplicate, and a job recorded as a success names an item that is new.
   */
  lemma ImportKeepsExistingItems(jobs: seq<JobInfo>, jobUrls: Option<seq<string>>, items: set<string>, login: Login, host: Host)
    ensures var r := Import(jobs, jobUrls, items, login, host);
            items <= r.items &&
            (forall n :: n in items && Some(n) in r.ledger ==> r.ledger[Some(n)].status == Some(FailedDuplicate)) &&
            (forall n :: Some(n) in r.ledger && r.ledger[Some(n)].status == Some(Succeeded) ==>
                           n in r.items && n !in items)
  {
    if jobs != [] && jobUrls.Some? {
      ImportAllRespects(items, Progress(map[], items, None), jobs, jobUrls.value, login, host);
    }
  }

  /** The names of the discovered jobs the `jobUrl` values match. */
  function MatchedNames(jobs: seq<JobInfo>, jobUrls: seq<string>): set<Option<string>>
    decreases |jobUrls|
  {
    if jobUrls == [] then {}
    else
      (if FindByUrl(jobs, jobUrls[0]).Some? then {FindByUrl(jobs, jobUrls[0]).value.name} else {})
      + MatchedNames(jobs, jobUrls[1..])
  }

  /** A name is matched exactly when some `jobUrl` finds a job of that name. */
  lemma {:induction false} MatchedNamesIff(jobs: seq<JobInfo>, jobUrls: seq<string>, n: Option<string>)
    ensures n in MatchedNames(jobs, jobUrls) <==>
              exists k :: 0 <= k < |jobUrls| && FindByUrl(jobs, jobUrls[k]).Some? && FindByUrl(jobs, jobUrls[k]).value.name == n
    decreases |jobUrls|
  {
    if jobUrls != [] {
      MatchedNamesIff(jobs, jobUrls[1..], n);
      if n in MatchedNames(jobs, jobUrls[1..]) {
        var k :| 0 <= k < |jobUrls[1..]| && FindByUrl(jobs, jobUrls[1..][k]).Some? && FindByUrl(jobs, jobUrls[1..][k]).value.name == n;
        assert jobUrls[1..][k] == jobUrls[k + 1];
      }
      if exists k :: 0 <= k < |jobUrls| && FindByUrl(jobs, jobUrls[k]).Some? && FindByUrl(jobs, jobUrls[k]).value.name == n {
        var k :| 0 <= k < |jobUrls| && FindByUrl(jobs, jobUrls[k]).Some? && FindByUrl(jobs, jobUrls[k]).value.name == n;
        if k > 0 {
          assert jobUrls[1..][k - 1] == jobUrls[k];
        }
      }
    }
  }

  /**
   * When no IOException escapes, every `jobUrl` that names a discovered job has
   * an entry in the ledger, and the ledger gains no other entries.
   */
  lemma {:induction false} ImportAllCoversUrls(p: Progress, jobs: seq<JobInfo>, jobUrls: seq<string>, login: Login, host: Host)
    requires ImportAll(p, jobs, jobUrls, login, host).escaped.None?
    ensures ImportAll(p, jobs, jobUrls, login, host).ledger.Keys == p.ledger.Keys + MatchedNames(jobs, jobUrls)
    decreases |jobUrls|
  {
    if jobUrls != [] {
      ImportAllCoversUrls(ImportOne(p, jobs, jobUrls[0], login, host), jobs, jobUrls[1..], login, host);
    }
  }

  // ---------------------------------------------------------------------------
  // The action
  // ---------------------------------------------------------------------------

  class JobImportAction {
    var remoteUrl: Option<string>
    var username: Option<string>
    var password: Option<string>
    var credentialId: Option<string>
    var remoteJobs: seq<JobInfo>
    var ledger: Ledger

    /** The discovered jobs form a set and the ledger only holds entries of discovered jobs. */
    ghost predicate Valid()
      reads this
    {
      JobSet(remoteJobs) && LedgerOk(remoteJobs, ledger)
    }

    /** A fresh action: nothing queried, nothing imported. */
    constructor ()
      ensures Valid()
      ensures remoteUrl == None && username == None && password == None && credentialId == None
      ensures remoteJobs == [] && ledger == map[]
    {
      remoteUrl, username, password, credentialId := None, None, None, None;
      remoteJobs, ledger := [], map[];
    }

    /** `doClear`: forgets the remote url, the login, the discovered jobs and the ledger. */
    method DoClear()
      modifies this
      ensures Valid()
      ensures remoteUrl == None && username == None && password == None && credentialId == None
      ensures remoteJobs == [] && ledger == map[]
    {
      remoteUrl := None;
      username, password, credentialId := None, None, None;
      remoteJobs := [];
      ledger := map[];
    }

    /**
     * `doQuery`: clears both collections, keeps the form's url and login (a
     * stored credential's login when its id is given and found), then lists the
     * remote jobs. Fetching and parsing are `load`, which yields the document's
     * `job` elements in document order; its exceptions are caught.
     */
    method DoQuery(form: QueryForm, lookup: string -> Option<(string, string)>,
                   load: (string, Option<string>, Option<string>) -> Result<seq<Element>>)
      modifies this
      ensures Valid()
      ensures remoteUrl == form.remoteUrl && credentialId == form.credentialId
      ensures (username, password) == LoginOf(form, lookup)
      ensures ledger == map[]
      ensures remoteJobs == Query(form.remoteUrl, LoginOf(form, lookup), load)
    {
      remoteJobs := [];
      ledger := map[];
      remoteUrl := form.remoteUrl;
      username := form.username;
      password := form.password;
      credentialId := form.credentialId;
      if !IsEmpty(credentialId) {
        var cred := lookup(credentialId.value);
        if cred.Some? {
          username := Some(cred.value.0);
          password := Some(cred.value.1);
        }
      }
      if !IsEmpty(remoteUrl) {
        var doc := load(remoteUrl.value + JobsQuery, username, password);
        if doc.Success? {
          remoteJobs := ListJobs(doc.value);
        }
      }
    }

    /** `getRemoteJobs(jobUrl)`: the first discovered job with exactly that url. */
    method GetRemoteJobs(jobUrl: string) returns (r: Option<JobInfo>)
      ensures r == FindByUrl(remoteJobs, jobUrl)
    {
      if jobUrl != "" {
        var i := 0;
        while i < |remoteJobs|
          invariant 0 <= i <= |remoteJobs|
          invariant forall m :: 0 <= m < i ==> remoteJobs[m].url != Some(jobUrl)
        {
          if remoteJobs[i].url == Some(jobUrl) {
            return Some(remoteJobs[i]);
          }
          i := i + 1;
        }
      }
      return None;
    }

    /**
     * One pass of the `doImport` loop: look the url up, give the job its ledger
     * entry the first time, then record the duplicate status or try the import.
     */
    method ImportUrl(jobUrl: string, items: set<string>, host: Host) returns (after: set<string>, escaped: Option<string>)
      requires LedgerOk(remoteJobs, ledger)
      modifies this
      ensures remoteUrl == old(remoteUrl) && username == old(username) && password == old(password)
      ensures credentialId == old(credentialId) && remoteJobs == old(remoteJobs)
      ensures Progress(ledger, after, escaped)
              == ImportOne(Progress(old(ledger), items, None), remoteJobs, jobUrl, (username, password), host)
    {
      after, escaped := items, None;
      var job := GetRemoteJobs(jobUrl);
      if job.Some? {
        var name := job.value.name;
        if name !in ledger {
          ledger := ledger[name := StatusInfo(Some(job.value), None)];
        }
        if Present(items, name) {
          ledger := ledger[name := ledger[name].(status := Some(FailedDuplicate))];
        } else {
          var attempt := TryImport(job.value, items, (username, password), host);
          ledger := ledger[name := ledger[name].(status := Some(attempt.status))];
          after, escaped := attempt.items, attempt.escaped;
        }
      }
    }

    /**
     * `doImport`: clears the ledger and, when jobs were discovered and `jobUrl`
     * values were sent (`jobUrls`), imports each in turn into the local items.
     * Returns the local items afterwards and the message of an IOException
     * that escapes from a rollback, which ends the loop.
     */
    method DoImport(jobUrls: Option<seq<string>>, items: set<string>, host: Host)
      returns (after: set<string>, escaped: Option<string>)
      requires Valid()
      modifies this
      ensures Valid()
      ensures remoteUrl == old(remoteUrl) && username == old(username) && password == old(password)
      ensures credentialId == old(credentialId) && remoteJobs == old(remoteJobs)
      ensures Progress(ledger, after, escaped) == Import(remoteJobs, jobUrls, items, (username, password), host)
    {
      ledger := map[];
      after, escaped := items, None;
      if remoteJobs != [] && jobUrls.Some? {
        var urls := jobUrls.value;
        var i := 0;
        while i < |urls| && escaped.None?
          invariant 0 <= i <= |urls|
          invariant remoteUrl == old(remoteUrl) && username == old(username) && password == old(password)
          invariant credentialId == old(credentialId) && remoteJobs == old(remoteJobs)
          invariant LedgerOk(remoteJobs, ledger)
          invariant ImportAll(Progress(ledger, after, escaped), remoteJobs, urls[i..], (username, password), host)
                    == Import(remoteJobs, jobUrls, items, (username, password), host)
        {
          assert urls[i..][0] == urls[i] && urls[i..][1..] == urls[i + 1..];
          ghost var p := Progress(ledger, after, escaped);
          after, escaped := ImportUrl(urls[i], after, host);
          assert ImportAll(p, remoteJobs, urls[i..], (username, password), host) == ImportAll(Progress(ledger, after, escaped), remoteJobs, urls[i + 1..], (username, password), host);
          i := i + 1;
        }
      }
    }
  }
}
