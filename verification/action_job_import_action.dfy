/**
 * The JobImportAction of the `action` package: the import page of the
 * generation that lists remote jobs through an XPath-filtered XML API query
 * and imports them under an optional new name, with an optional textual
 * replacement in their configuration.
 *
 * Its jobs are `model.RemoteJob` items read by a `fromXml` that is not part of
 * this model; the action only reads their name, url and full name (the key of
 * their ordering), so a job is a small record here. As in the first
 * generation, the action's set and ledger are values it owns alone.
 */
module ActionJobImportAction {
  import opened Wrappers
  import opened JavaStrings
  import opened ImportMessages
  import opened LocalJenkins

  /** The `{0}/api/xml{1}` request format: what comes between the url and the filters. */
  const ApiXml: string := "/api/xml"

  /** What `doImport` appends to a job's url to fetch its configuration. */
  const ConfigXml: string := "/config.xml"

  // The pieces of the exclusion filter:
  //   the `not` function, XPath 1.0 section 4.3, around
  //   the `contains` function, XPath 1.0 section 4.2;
  //   " or " with its spaces percent-encoded, RFC 3986 section 2.1.
  const FilterOpen: string := "not(contains(name,'"
  const FilterClose: string := "'))"
  const Separator: string := "%20or%20"
  const ExcludeOpen: string := "?exclude=//job["
  const ExcludeClose: string := "]"

  // The root elements of the two project kinds `isValidProject` accepts.
  const ProjectRoot: string := "<project>"
  const MavenRoot: string := "<maven2-moduleset>"

  /** The message of the NullPointerException a null configuration causes in the replacement. */
  const NullPointer: string := "java.lang.NullPointerException"

  /** What the action reads of a `model.RemoteJob`: its name, its url and its full name. */
  datatype Job = Job(name: Option<string>, url: Option<string>, fullName: Option<string>)

  /** A ledger entry (`RemoteJobImportStatus`): the job and the outcome recorded for it. */
  datatype Entry = Entry(job: Job, status: Option<Message>)

  /**
   * The status ledger, a `TreeMap` ordered by `compareTo`, which for non-null
   * full names identifies jobs by full name: one entry per full name.
   */
  type Ledger = map<Option<string>, Entry>

  /** One `JobImportRequest` bound from the `job.` parameters. */
  datatype ImportRequest = ImportRequest(
    url: Option<string>,
    newName: Option<string>,
    patternToMatch: Option<string>,
    newValue: Option<string>)

  /**
   * The calls `doImport` makes outside the action: `JenkinsAPIUtils.getResource`
   * (whose text may be null), `Pattern.compile` (the message of the
   * PatternSyntaxException an invalid pattern throws, `None` for a valid one),
   * the `java.util.regex` replacement of every match of a compiled pattern by
   * a value, `createProjectFromXML`, and `Item.delete`.
   */
  datatype Host = Host(
    getResource: string -> Result<Option<string>>,
    compile: string -> Option<string>,
    replaceAll: (string, Option<string>, string) -> Result<string>,
    create: (Option<string>, string) -> Creation,
    delete: string -> Deletion)

  // ---------------------------------------------------------------------------
  // isValidProject
  // ---------------------------------------------------------------------------

  /**
   * `isValidProject`: false for a null or empty text; otherwise whether it
   * contains `<project>` or `<maven2-moduleset>`. The emptiness test never
   * decides anything: an empty text contains neither.
   */
  function IsValidProject(configXml: Option<string>): (r: bool)
    ensures r <==> configXml.Some? && (Contains(configXml.value, ProjectRoot) || Contains(configXml.value, MavenRoot))
  {
    if IsEmpty(configXml) then false
    else if Contains(configXml.value, ProjectRoot) then true
    else if Contains(configXml.value, MavenRoot) then true
    else false
  }

  /** A text is a valid project exactly when one of the two root tags occurs somewhere in it. */
  lemma IsValidProjectOccurs(s: string)
    ensures IsValidProject(Some(s)) <==>
              (exists i :: OccursAt(s, ProjectRoot, i)) || (exists i :: OccursAt(s, MavenRoot, i))
  {
    ContainsIff(s, ProjectRoot);
    ContainsIff(s, MavenRoot);
  }

  // ---------------------------------------------------------------------------
  // buildXpathFilters
  // ---------------------------------------------------------------------------

  /** `buildXpathFilters(filterValue)`: empty for a blank value, else the `not(contains(…))` test with the value as is. */
  function Filter(value: Option<string>): (r: string)
    ensures r == "" <==> IsBlank(value)
  {
    if IsBlank(value) then "" else FilterOpen + value.value + FilterClose
  }

  /** The value a single filter tests for: what lies between its fixed opening and closing. */
  function FilterValue(f: string): string
    requires |FilterOpen| + |FilterClose| <= |f|
  {
    f[|FilterOpen|..|f| - |FilterClose|]
  }

  /**
   * A single filter is empty exactly for a blank value; otherwise it is never
   * blank, and the value can be read back from it unchanged (it is not escaped).
   */
  lemma FilterRoundTrip(value: Option<string>)
    ensures Filter(value) == "" <==> IsBlank(value)
    ensures !IsBlank(value) ==>
              StartsWith(Filter(value), FilterOpen + value.value) && EndsWith(Filter(value), FilterClose)
    ensures !IsBlank(value) ==>
              !IsBlank(Some(Filter(value))) &&
              |FilterOpen| + |FilterClose| <= |Filter(value)| && FilterValue(Filter(value)) == value.value
  {
    if !IsBlank(value) {
      var f := Filter(value);
      assert f[0] == 'n';
      assert f[|FilterOpen|..|f| - |FilterClose|] == value.value;
      assert f[..|FilterOpen| + |value.value|] == FilterOpen + value.value;
      assert f[|f| - |FilterClose|..] == FilterClose;
    }
  }

  lemma JoinUpToTwo(parts: seq<string>, separator: string)
    requires |parts| <= 2
    ensures Join(parts, separator) ==
              if parts == [] then "" else if |parts| == 1 then parts[0] else parts[0] + separator + parts[1]
  {
    if |parts| == 2 {
      assert parts[1..] == [parts[1]];
    }
  }

  /**
   * `buildXpathFilters(adminFilterPattern, jobFilterPattern)`: the non-blank
   * single filters, the administrator's first, joined by `%20or%20` and wrapped
   * in `?exclude=//job[…]`; empty when both values are blank.
   */
  function XpathFilters(admin: Option<string>, job: Option<string>): (r: string)
    ensures r == "" <==> IsBlank(admin) && IsBlank(job)
    ensures !IsBlank(admin) && IsBlank(job) ==> r == ExcludeOpen + Filter(admin) + ExcludeClose
    ensures IsBlank(admin) && !IsBlank(job) ==> r == ExcludeOpen + Filter(job) + ExcludeClose
    ensures !IsBlank(admin) && !IsBlank(job) ==>
              r == ExcludeOpen + Filter(admin) + Separator + Filter(job) + ExcludeClose
  {
    var joined := Join(KeptFilters(admin, job), Separator);
    KeptFiltersJoined(admin, job);
    if !IsBlank(Some(joined)) then ExcludeOpen + joined + ExcludeClose else ""
  }

  /** The list of single filters `buildXpathFilters` keeps: those that are not blank, the administrator's first. */
  function KeptFilters(admin: Option<string>, job: Option<string>): seq<string>
  {
    var adminPart := if !IsBlank(Some(Filter(admin))) then [Filter(admin)] else [];
    var jobPart := if !IsBlank(Some(Filter(job))) then [Filter(job)] else [];
    adminPart + jobPart
  }

  /** The kept filters joined: the non-blank single filters, and blank only when both values are. */
  lemma KeptFiltersJoined(admin: Option<string>, job: Option<string>)
    ensures var joined := Join(KeptFilters(admin, job), Separator);
            && (IsBlank(Some(joined)) <==> IsBlank(admin) && IsBlank(job))
            && (!IsBlank(admin) && IsBlank(job) ==> joined == Filter(admin))
            && (IsBlank(admin) && !IsBlank(job) ==> joined == Filter(job))
            && (!IsBlank(admin) && !IsBlank(job) ==> joined == Filter(admin) + Separator + Filter(job))
  {
    FilterRoundTrip(admin);
    FilterRoundTrip(job);
    var parts := KeptFilters(admin, job);
    var joined := Join(parts, Separator);
    JoinUpToTwo(parts, Separator);
    if parts != [] {
      assert parts[0][0] == 'n' && joined[0] == parts[0][0];
      assert !IsWhitespace(joined[0]);
    }
  }

  /** Trimming the filters never changes them: they are empty or run from `?` to `]`. */
  lemma TrimKeepsFilters(admin: Option<string>, job: Option<string>)
    ensures TrimToEmpty(Some(XpathFilters(admin, job))) == XpathFilters(admin, job)
  {
    var filters := XpathFilters(admin, job);
    if filters != "" {
      assert filters[0] == '?' && filters[|filters| - 1] == ']';
    }
  }

  /**
   * The url `doQuery` fetches: the remote url, `/api/xml`, then the filters
   * trimmed to empty.
   */
  function QueryUrl(remoteUrl: string, admin: Option<string>, job: Option<string>): (r: string)
    ensures r == remoteUrl + ApiXml + XpathFilters(admin, job)
  {
    TrimKeepsFilters(admin, job);
    remoteUrl + ApiXml + TrimToEmpty(Some(XpathFilters(admin, job)))
  }

  // ---------------------------------------------------------------------------
  // doQuery and getRemoteJobs(String)
  // ---------------------------------------------------------------------------

  /**
   * The jobs `doQuery` leaves: all of what `fromXml` read from the query url,
   * or, for an empty remote url or any caught exception, none at all.
   */
  function Query(remoteUrl: Option<string>, admin: Option<string>, jobFilter: Option<string>,
                 load: string -> Result<seq<Job>>): (r: seq<Job>)
    ensures IsEmpty(remoteUrl) ==> r == []
    ensures !IsEmpty(remoteUrl) ==>
              var loaded := load(remoteUrl.value + ApiXml + XpathFilters(admin, jobFilter));
              (loaded.Failure? ==> r == []) && (loaded.Success? ==> r == loaded.value)
  {
    if IsEmpty(remoteUrl) then []
    else
      match load(QueryUrl(remoteUrl.value, admin, jobFilter))
      case Failure(_) => []
      case Success(loaded) => loaded
  }

  /** The position of the first job whose url is `jobUrl`; `|jobs|` when there is none. */
  function FirstWithUrl(jobs: seq<Job>, jobUrl: string): (r: nat)
    ensures r <= |jobs|
    ensures forall m :: 0 <= m < r ==> jobs[m].url != Some(jobUrl)
    ensures r < |jobs| ==> jobs[r].url == Some(jobUrl)
    decreases |jobs|
  {
    if jobs == [] then 0
    else if jobs[0].url == Some(jobUrl) then 0
    else 1 + FirstWithUrl(jobs[1..], jobUrl)
  }

  /**
   * `getRemoteJobs(jobUrl)`: null for a null or empty url; otherwise the first
   * job, in set order, whose url equals it exactly; null when there is none.
   */
  function FindByUrl(jobs: seq<Job>, jobUrl: Option<string>): (r: Option<Job>)
    ensures r.Some? <==> !IsEmpty(jobUrl) && exists k :: 0 <= k < |jobs| && jobs[k].url == jobUrl
    ensures r.Some? ==> r.value in jobs && r.value.url == jobUrl
    ensures r.Some? ==> exists k :: 0 <= k < |jobs| && jobs[k] == r.value &&
                                   forall m :: 0 <= m < k ==> jobs[m].url != jobUrl
  {
    if IsEmpty(jobUrl) then None
    else
      var k := FirstWithUrl(jobs, jobUrl.value);
      if k < |jobs| then Some(jobs[k]) else None
  }

  // ---------------------------------------------------------------------------
  // doImport
  // ---------------------------------------------------------------------------

  /** The name the job is imported under: the request's new name when it is not blank, else the job's own. */
  function ImportedName(job: Job, request: ImportRequest): (r: Option<string>)
    ensures r == request.newName || r == job.name
    ensures !IsBlank(request.newName) ==> r == request.newName && r.Some?
    ensures r.None? ==> job.name.None?
  {
    if !IsBlank(request.newName) then request.newName else job.name
  }

  /**
   * The optional replacement: every match of a non-blank pattern replaced by
   * the new value. The pattern is compiled before the text is looked at, so an
   * invalid pattern fails even on a null configuration, and a valid one fails
   * on a null configuration with a NullPointerException.
   */
  function Rewrite(configXml: Option<string>, request: ImportRequest, host: Host): (r: Result<Option<string>>)
    ensures IsBlank(request.patternToMatch) ==> r == Success(configXml)
    ensures !IsBlank(request.patternToMatch) && host.compile(request.patternToMatch.value).Some? ==>
              r == Failure(host.compile(request.patternToMatch.value).value)
    ensures !IsBlank(request.patternToMatch) && host.compile(request.patternToMatch.value).None? && configXml.None? ==>
              r == Failure(NullPointer)
    ensures r.Success? && !IsBlank(request.patternToMatch) ==> r.value.Some? && configXml.Some?
  {
    if IsBlank(request.patternToMatch) then Success(configXml)
    else if host.compile(request.patternToMatch.value).Some? then Failure(host.compile(request.patternToMatch.value).value)
    else if configXml.None? then Failure(NullPointer)
    else
      match host.replaceAll(request.patternToMatch.value, request.newValue, configXml.value)
      case Failure(e) => Failure(e)
      case Success(text) => Success(Some(text))
  }

  /**
   * The configuration `doImport` would create the item from, or the exception
   * that stops it before the validity test.
   */
  function Config(job: Job, request: ImportRequest, host: Host): (r: Result<Option<string>>)
    ensures var fetched := host.getResource(Render(job.url) + ConfigXml);
            (fetched.Failure? ==> r == Failure(fetched.error)) &&
            (r.Success? ==> fetched.Success?) &&
            (IsBlank(request.patternToMatch) ==> r == fetched)
  {
    match host.getResource(Render(job.url) + ConfigXml)
    case Failure(e) => Failure(e)
    case Success(configXml) => Rewrite(configXml, request, host)
  }

  /**
   * The `try` block of `doImport` for a free name: fetch and rewrite the
   * configuration; an invalid one is refused and nothing is created; a valid
   * one is created under `name` and success is recorded; any exception records
   * the exception status and rolls back the item of that name.
   */
  function Transfer(job: Job, name: Option<string>, request: ImportRequest, items: set<string>, host: Host): (r: Attempt)
    requires !Present(items, name)
    ensures r.status == Succeeded <==>
              Config(job, request, host).Success? && IsValidProject(Config(job, request, host).value) &&
              host.create(name, Config(job, request, host).value.value).Created?
    ensures r.status == Succeeded ==> r.items == AfterCreate(items, name, Created) && r.escaped.None?
    ensures r.status == FailedNotAProject <==>
              Config(job, request, host).Success? && !IsValidProject(Config(job, request, host).value)
    ensures r.status == FailedNotAProject ==> r.items == items && r.escaped.None?
    ensures r.status.FailedException? || r.status == Succeeded || r.status == FailedNotAProject
    ensures r.escaped.Some? ==> Present(r.items, name) && host.delete(name.value).DeleteFailed?
    ensures r.status.FailedException? && r.escaped.None? ==> !Present(r.items, name) || !host.delete(name.value).Deleted?
    ensures forall n :: Some(n) != name ==> (n in r.items <==> n in items)
  {
    match Config(job, request, host)
    case Failure(e) => Rollback(name, FailedException(Some(e)), items, host.delete)
    case Success(configXml) =>
      if !IsValidProject(configXml) then Attempt(FailedNotAProject, items, None)
      else
        var c := host.create(name, configXml.value);
        if c.Created? then Attempt(Succeeded, AfterCreate(items, name, c), None)
        else Rollback(name, FailedException(c.message), AfterCreate(items, name, c), host.delete)
  }

  /** An entry is keyed by its job's full name, holds a discovered job, and has a status. */
  predicate EntryOk(jobs: seq<Job>, key: Option<string>, entry: Entry)
  {
    entry.job.fullName == key && entry.job in jobs && entry.status.Some?
  }

  predicate LedgerOk(jobs: seq<Job>, ledger: Ledger)
  {
    forall k :: k in ledger ==> EntryOk(jobs, k, ledger[k])
  }

  /** The state `doImport` threads through its loop: the ledger, the local items, an escaped IOException. */
  datatype Progress = Progress(ledger: Ledger, items: set<string>, escaped: Option<string>)

  /**
   * One pass of the `doImport` loop for one request: an unknown url is skipped;
   * otherwise the job gets a ledger entry the first time it is seen and its
   * status is set: the duplicate status when a local item has the imported
   * name, the outcome of the transfer otherwise. Only that entry and the item
   * of the imported name can change.
   */
  function ImportOne(p: Progress, jobs: seq<Job>, request: ImportRequest, host: Host): (r: Progress)
    ensures FindByUrl(jobs, request.url).None? ==> r == p
    ensures FindByUrl(jobs, request.url).Some? ==>
              var job := FindByUrl(jobs, request.url).value;
              r.ledger.Keys == p.ledger.Keys + {job.fullName} &&
              (job.fullName in p.ledger ==> r.ledger[job.fullName].job == p.ledger[job.fullName].job) &&
              (forall k :: k in p.ledger && k != job.fullName ==> r.ledger[k] == p.ledger[k]) &&
              (forall n :: Some(n) != ImportedName(job, request) ==> (n in r.items <==> n in p.items))
    ensures LedgerOk(jobs, p.ledger) ==> LedgerOk(jobs, r.ledger)
  {
    match FindByUrl(jobs, request.url)
    case None => p
    case Some(job) =>
      var ledger := if job.fullName in p.ledger then p.ledger else p.ledger[job.fullName := Entry(job, None)];
      var name := ImportedName(job, request);
      if Present(p.items, name) then
        Progress(ledger[job.fullName := ledger[job.fullName].(status := Some(FailedDuplicate))], p.items, None)
      else
        var a := Transfer(job, name, request, p.items, host);
        Progress(ledger[job.fullName := ledger[job.fullName].(status := Some(a.status))], a.items, a.escaped)
  }

  /** The `doImport` loop over the requests, which an escaping IOException ends. */
  function ImportAll(p: Progress, jobs: seq<Job>, requests: seq<ImportRequest>, host: Host): (r: Progress)
    ensures LedgerOk(jobs, p.ledger) ==> LedgerOk(jobs, r.ledger)
    ensures p.escaped.Some? ==> r == p
    decreases |requests|
  {
    if requests == [] || p.escaped.Some? then p
    else ImportAll(ImportOne(p, jobs, requests[0], host), jobs, requests[1..], host)
  }

  /**
   * `doImport`: the ledger is cleared; nothing more happens unless jobs were
   * discovered and `job.url` parameters were sent.
   */
  function Import(jobs: seq<Job>, requests: Option<seq<ImportRequest>>, items: set<string>, host: Host): (r: Progress)
    ensures LedgerOk(jobs, r.ledger)
    ensures jobs == [] || requests.None? ==> r == Progress(map[], items, None)
  {
    if jobs != [] && requests.Some? then ImportAll(Progress(map[], items, None), jobs, requests.value, host)
    else Progress(map[], items, None)
  }

  /**
   * When a local item already has the imported name, the duplicate status is
   * recorded and nothing is fetched, rewritten, created or deleted: the
   * outcome is the same whatever the remote and local calls would do.
   */
  lemma DuplicateFetchesNothing(p: Progress, jobs: seq<Job>, request: ImportRequest, h1: Host, h2: Host)
    requires FindByUrl(jobs, request.url).Some?
    requires Present(p.items, ImportedName(FindByUrl(jobs, request.url).value, request))
    ensures ImportOne(p, jobs, request, h1) == ImportOne(p, jobs, request, h2)
    ensures var r := ImportOne(p, jobs, request, h1);
            r.items == p.items && r.escaped.None? &&
            r.ledger[FindByUrl(jobs, request.url).value.fullName].status == Some(FailedDuplicate)
  {
  }

  /**
   * A configuration that is not a project is refused: the not-a-project status
   * is recorded, and nothing is created or deleted, whatever creation and
   * deletion would do.
   */
  lemma InvalidConfigCreatesNothing(p: Progress, jobs: seq<Job>, request: ImportRequest, host: Host,
                                    create: (Option<string>, string) -> Creation, delete: string -> Deletion)
    requires FindByUrl(jobs, request.url).Some?
    requires var job := FindByUrl(jobs, request.url).value;
             !Present(p.items, ImportedName(job, request)) &&
             Config(job, request, host).Success? && !IsValidProject(Config(job, request, host).value)
    ensures ImportOne(p, jobs, request, host) == ImportOne(p, jobs, request, host.(create := create, delete := delete))
    ensures var r := ImportOne(p, jobs, request, host);
            r.items == p.items && r.escaped.None? &&
            r.ledger[FindByUrl(jobs, request.url).value.fullName].status == Some(FailedNotAProject)
  {
    var job := FindByUrl(jobs, request.url).value;
    var other := host.(create := create, delete := delete);
    assert Config(job, request, other) == Config(job, request, host);
  }

  /**
   * The status of one pass: success exactly when the imported name was free,
   * the configuration was fetched and rewritten, is a project, and
   * `createProjectFromXML` returned; after an exception no item of that name
   * remains unless its deletion was interrupted or failed.
   */
  lemma ImportOneOutcome(p: Progress, jobs: seq<Job>, request: ImportRequest, host: Host)
    requires FindByUrl(jobs, request.url).Some?
    ensures var job := FindByUrl(jobs, request.url).value;
            var name := ImportedName(job, request);
            var r := ImportOne(p, jobs, request, host);
            var config := Config(job, request, host);
            (r.ledger[job.fullName].status == Some(Succeeded) <==>
               !Present(p.items, name) &&
               config.Success? && IsValidProject(config.value) && host.create(name, config.value.value).Created?) &&
            (r.ledger[job.fullName].status == Some(Succeeded) ==> r.items == AfterCreate(p.items, name, Created)) &&
            (r.ledger[job.fullName].status.value.FailedException? ==>
               !Present(r.items, name) || !host.delete(name.value).Deleted?)
  {
  }

  lemma {:induction false} ImportAllKeepsItems(before: set<string>, p: Progress, jobs: seq<Job>, requests: seq<ImportRequest>, host: Host)
    requires before <= p.items
    ensures before <= ImportAll(p, jobs, requests, host).items
    decreases |requests|
  {
    if requests != [] && p.escaped.None? {
      var q := ImportOne(p, jobs, requests[0], host);
      if FindByUrl(jobs, requests[0].url).Some? {
        var name := ImportedName(FindByUrl(jobs, requests[0].url).value, requests[0]);
        if !Present(p.items, name) {
          assert forall n :: n in before ==> Some(n) != name;
        }
      }
      ImportAllKeepsItems(before, q, jobs, requests[1..], host);
    }
  }

  /** An import never removes a local item that existed before it. */
  lemma ImportKeepsExistingItems(jobs: seq<Job>, requests: Option<seq<ImportRequest>>, items: set<string>, host: Host)
    ensures items <= Import(jobs, requests, items, host).items
  {
    if jobs != [] && requests.Some? {
      ImportAllKeepsItems(items, Progress(map[], items, None), jobs, requests.value, host);
    }
  }

  /** The full names of the discovered jobs the `job.url` values of the requests match. */
  function MatchedFullNames(jobs: seq<Job>, requests: seq<ImportRequest>): set<Option<string>>
    decreases |requests|
  {
    if requests == [] then {}
    else
      (if FindByUrl(jobs, requests[0].url).Some? then {FindByUrl(jobs, requests[0].url).value.fullName} else {})
      + MatchedFullNames(jobs, requests[1..])
  }

  /** A full name is matched exactly when some request's url finds a job of that full name. */
  lemma {:induction false} MatchedFullNamesIff(jobs: seq<Job>, requests: seq<ImportRequest>, n: Option<string>)
    ensures n in MatchedFullNames(jobs, requests) <==>
              exists k :: 0 <= k < |requests| && FindByUrl(jobs, requests[k].url).Some? &&
                          FindByUrl(jobs, requests[k].url).value.fullName == n
    decreases |requests|
  {
    if requests != [] {
      MatchedFullNamesIff(jobs, requests[1..], n);
      if n in MatchedFullNames(jobs, requests[1..]) {
        var k :| 0 <= k < |requests[1..]| && FindByUrl(jobs, requests[1..][k].url).Some? &&
                 FindByUrl(jobs, requests[1..][k].url).value.fullName == n;
        assert requests[1..][k] == requests[k + 1];
      }
      if exists k :: 0 <= k < |requests| && FindByUrl(jobs, requests[k].url).Some? &&
                     FindByUrl(jobs, requests[k].url).value.fullName == n {
        var k :| 0 <= k < |requests| && FindByUrl(jobs, requests[k].url).Some? &&
                 FindByUrl(jobs, requests[k].url).value.fullName == n;
        if k > 0 {
          assert requests[1..][k - 1] == requests[k];
        }
      }
    }
  }

  /**
   * When no IOException escapes, every request whose url names a discovered
   * job leaves an entry for that job's full name, and the ledger gains no
   * other entries.
   */
  lemma {:induction false} ImportAllCoversUrls(p: Progress, jobs: seq<Job>, requests: seq<ImportRequest>, host: Host)
    requires ImportAll(p, jobs, requests, host).escaped.None?
    ensures ImportAll(p, jobs, requests, host).ledger.Keys == p.ledger.Keys + MatchedFullNames(jobs, requests)
    decreases |requests|
  {
    if requests != [] {
      ImportAllCoversUrls(ImportOne(p, jobs, requests[0], host), jobs, requests[1..], host);
    }
  }

  // ---------------------------------------------------------------------------
  // The action
  // ---------------------------------------------------------------------------

  class JobImportAction {
    var remoteUrl: Option<string>
    var jobFilterPattern: Option<string>
    var remoteJobs: seq<Job>
    var ledger: Ledger

    /** The ledger only holds entries of discovered jobs. */
    ghost predicate Valid()
      reads this
    {
      LedgerOk(remoteJobs, ledger)
    }

    /** A fresh action: nothing queried, nothing imported. */
    constructor ()
      ensures Valid()
      ensures remoteUrl == None && jobFilterPattern == None && remoteJobs == [] && ledger == map[]
    {
      remoteUrl, jobFilterPattern := None, None;
      remoteJobs, ledger := [], map[];
    }

    /** `doClear`: forgets the remote url, the discovered jobs and the ledger; the job filter stays. */
    method DoClear()
      modifies this
      ensures Valid()
      ensures remoteUrl == None && remoteJobs == [] && ledger == map[]
      ensures jobFilterPattern == old(jobFilterPattern)
    {
      remoteUrl := None;
      remoteJobs := [];
      ledger := map[];
    }

    /**
     * `doQuery`: clears both collections, keeps the form's `remoteUrl` and
     * `jobFilterPattern`, then, for a non-empty url, loads the jobs behind the
     * filtered query url. `admin` is the job filter configured for that remote
     * Jenkins (`""` when none is), `load` is the fetch and `fromXml` together;
     * the exceptions they throw are caught and leave no job.
     */
    method DoQuery(formRemoteUrl: Option<string>, formJobFilter: Option<string>, admin: Option<string>,
                   load: string -> Result<seq<Job>>)
      modifies this
      ensures Valid()
      ensures remoteUrl == formRemoteUrl && jobFilterPattern == formJobFilter && ledger == map[]
      ensures remoteJobs == Query(formRemoteUrl, admin, formJobFilter, load)
    {
      remoteJobs := [];
      ledger := map[];
      remoteUrl := formRemoteUrl;
      jobFilterPattern := formJobFilter;
      if !IsEmpty(remoteUrl) {
        var filters := TrimToEmpty(Some(XpathFilters(admin, jobFilterPattern)));
        var requestUrl := remoteUrl.value + ApiXml + filters;
        var loaded := load(requestUrl);
        if loaded.Success? {
          remoteJobs := loaded.value;
        }
      }
    }

    /** `getRemoteJobs(jobUrl)`: the first discovered job with exactly that url. */
    method GetRemoteJobs(jobUrl: Option<string>) returns (r: Option<Job>)
      ensures r == FindByUrl(remoteJobs, jobUrl)
    {
      if !IsEmpty(jobUrl) {
        var i := 0;
        while i < |remoteJobs|
          invariant 0 <= i <= |remoteJobs|
          invariant forall m :: 0 <= m < i ==> remoteJobs[m].url != jobUrl
        {
          if remoteJobs[i].url == jobUrl {
            return Some(remoteJobs[i]);
          }
          i := i + 1;
        }
      }
      return None;
    }

    /**
     * The `try` block of `doImport` and its `catch`: fetch the configuration,
     * apply the replacement, test it, create the item; on an exception, roll
     * the item back.
     */
    static method TryImport(job: Job, name: Option<string>, request: ImportRequest, items: set<string>, host: Host)
      returns (a: Attempt)
      requires !Present(items, name)
      ensures a == Transfer(job, name, request, items, host)
    {
      var fetched := host.getResource(Render(job.url) + ConfigXml);
      if fetched.Failure? {
        return Rollback(name, FailedException(Some(fetched.error)), items, host.delete);
      }
      var configXml := fetched.value;
      if !IsBlank(request.patternToMatch) {
        var invalid := host.compile(request.patternToMatch.value);
        if invalid.Some? {
          return Rollback(name, FailedException(Some(invalid.value)), items, host.delete);
        }
        if configXml.None? {
          return Rollback(name, FailedException(Some(NullPointer)), items, host.delete);
        }
        var replaced := host.replaceAll(request.patternToMatch.value, request.newValue, configXml.value);
        if replaced.Failure? {
          return Rollback(name, FailedException(Some(replaced.error)), items, host.delete);
        }
        configXml := Some(replaced.value);
      }
      if IsValidProject(configXml) {
        var c := host.create(name, configXml.value);
        if c.Created? {
          a := Attempt(Succeeded, AfterCreate(items, name, c), None);
        } else {
          a := Rollback(name, FailedException(c.message), AfterCreate(items, name, c), host.delete);
        }
      } else {
        a := Attempt(FailedNotAProject, items, None);
      }
    }

    /**
     * One pass of the `doImport` loop: look the url up, give the job its ledger
     * entry the first time, work out the imported name, then record the
     * duplicate status or try the import.
     */
    method ImportRequestOnce(request: ImportRequest, items: set<string>, host: Host)
      returns (after: set<string>, escaped: Option<string>)
      requires LedgerOk(remoteJobs, ledger)
      modifies this
      ensures remoteUrl == old(remoteUrl) && jobFilterPattern == old(jobFilterPattern) && remoteJobs == old(remoteJobs)
      ensures Progress(ledger, after, escaped) == ImportOne(Progress(old(ledger), items, None), remoteJobs, request, host)
    {
      after, escaped := items, None;
      var job := GetRemoteJobs(request.url);
      if job.Some? {
        var key := job.value.fullName;
        if key !in ledger {
          ledger := ledger[key := Entry(job.value, None)];
        }
        var name := job.value.name;
        if !IsBlank(request.newName) {
          name := request.newName;
        }
        if Present(items, name) {
          ledger := ledger[key := ledger[key].(status := Some(FailedDuplicate))];
        } else {
          var attempt := TryImport(job.value, name, request, items, host);
          ledger := ledger[key := ledger[key].(status := Some(attempt.status))];
          after, escaped := attempt.items, attempt.escaped;
        }
      }
    }

    /**
     * `doImport`: clears the ledger and, when jobs were discovered and
     * `job.url` parameters were sent (`requests`), imports each request in
     * turn into the local items. Returns the local items afterwards and the
     * message of an IOException that escapes from a rollback, which ends the loop.
     */
    method DoImport(requests: Option<seq<ImportRequest>>, items: set<string>, host: Host)
      returns (after: set<string>, escaped: Option<string>)
      requires Valid()
      modifies this
      ensures Valid()
      ensures remoteUrl == old(remoteUrl) && jobFilterPattern == old(jobFilterPattern) && remoteJobs == old(remoteJobs)
      ensures Progress(ledger, after, escaped) == Import(remoteJobs, requests, items, host)
    {
      ledger := map[];
      after, escaped := items, None;
      if remoteJobs != [] && requests.Some? {
        var pending := requests.value;
        var i := 0;
        while i < |pending| && escaped.None?
          invariant 0 <= i <= |pending|
          invariant remoteUrl == old(remoteUrl) && jobFilterPattern == old(jobFilterPattern)
          invariant remoteJobs == old(remoteJobs)
          invariant LedgerOk(remoteJobs, ledger)
          invariant ImportAll(Progress(ledger, after, escaped), remoteJobs, pending[i..], host)
                    == Import(remoteJobs, requests, items, host)
        {
          assert pending[i..][0] == pending[i] && pending[i..][1..] == pending[i + 1..];
          ghost var p := Progress(ledger, after, escaped);
          after, escaped := ImportRequestOnce(pending[i], after, host);
          assert ImportAll(p, remoteJobs, pending[i..], host) == ImportAll(Progress(ledger, after, escaped), remoteJobs, pending[i + 1..], host);
          i := i + 1;
        }
      }
    }
  }
}
