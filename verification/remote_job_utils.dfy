/**
 * RemoteJobUtils.fromXml of the first generation: a dispatcher on the literal
 * root tag of a remote XML API document. A single project becomes one job; a
 * `<hudson>` or `<listView>` document lists job urls, each of which is fetched
 * (`/api/xml`) and read again, and the results are merged into one TreeSet.
 * Nothing is caught: any exception reaches the caller.
 */
module RemoteJobUtils {
  import opened Wrappers
  import opened JavaStrings
  import opened LegacyJobs

  /**
   * The XML library and the network as fromXml uses them: the string value of an
   * XPath expression over a document (never null), the texts of the nodes an
   * expression selects, and the body fetched from a URL. Each may throw
   * (`Failure`); a document that does not parse fails at its first evaluation.
   */
  datatype Xml = Xml(
    stringValue: (string, string) -> Result<string>,
    nodeTexts: (string, string) -> Result<seq<string>>,
    fetch: string -> Result<string>)

  /** The path each listed job url is extended with before it is fetched. */
  const ApiXml: string := "/api/xml"

  /** The message of the failure the model reports when its recursion bound is spent. */
  const TooDeep: string := "recursion bound reached"

  // The root tags fromXml recognises, in the order it tests them.
  const Hudson: string := "hudson"
  const FreeStyleProject: string := "freeStyleProject"
  const ListView: string := "listView"
  const MavenModuleSet: string := "mavenModuleSet"
  const MatrixProject: string := "matrixProject"

  /** The document is non-empty and starts with the literal opening tag `<root>`. */
  predicate Opens(xml: Option<string>, root: string)
    ensures Opens(xml, root) ==> xml.Some? && |xml.value| >= |root| + 2 && xml.value[0] == '<' && xml.value[|root| + 1] == '>'
  {
    !IsEmpty(xml) && StartsWith(xml.value, "<" + root + ">")
  }

  /** No recognised root tag opens the document. */
  predicate Unrecognised(xml: Option<string>)
  {
    !Opens(xml, Hudson) && !Opens(xml, FreeStyleProject) && !Opens(xml, ListView)
    && !Opens(xml, MavenModuleSet) && !Opens(xml, MatrixProject)
  }

  /**
   * `fromFreeStyleProjectXml`, `fromMavenModuleSetXml`, `fromMatrixProjectXml`:
   * null for an empty document or one with another root; otherwise the job built
   * from the root's `name`, `url` and `description` values, none of them null.
   */
  function ProjectJob(xml: Option<string>, root: string, x: Xml): (r: Result<Option<JobInfo>>)
    ensures r.Success? ==> (r.value.Some? <==> Opens(xml, root))
    ensures r.Success? && r.value.Some? ==>
              r.value.value.name.Some? && r.value.value.url.Some? && r.value.value.description.Some?
  {
    if !Opens(xml, root) then Success(None)
    else
      match x.stringValue(xml.value, "/" + root + "/name")
      case Failure(e) => Failure(e)
      case Success(name) =>
        match x.stringValue(xml.value, "/" + root + "/url")
        case Failure(e) => Failure(e)
        case Success(url) =>
          match x.stringValue(xml.value, "/" + root + "/description")
          case Failure(e) => Failure(e)
          case Success(description) => Success(Some(JobInfo(Some(name), Some(url), Some(description))))
  }

  /** `remoteJobs.add(fromXxxXml(xml))` on the fresh set of a single-project branch. */
  function ProjectBranch(xml: Option<string>, root: string, x: Xml): (r: Result<seq<JobInfo>>)
    ensures r.Success? ==> JobSet(r.value) && !HasNullName(r.value)
  {
    match ProjectJob(xml, root, x)
    case Failure(e) => Failure(e)
    case Success(job) =>
      if job.None? then Failure(NullPointer)
      else
        assert !HasNullName([job.value]) by {
          assert [job.value][0] == job.value;
        }
        AddJob([], job.value)
  }

  /**
   * `fromXml`: an empty set for an empty document; otherwise the branch of the
   * first root tag that opens it; an empty set for any other document.
   */
  function ParseJobs(xml: Option<string>, x: Xml, fuel: nat): (r: Result<seq<JobInfo>>)
    ensures r.Success? ==> JobSet(r.value) && !HasNullName(r.value)
    ensures IsEmpty(xml) || Unrecognised(xml) ==> r == Success([])
    decreases fuel, 2, 0
  {
    if IsEmpty(xml) then Success([])
    else if Opens(xml, Hudson) then ListBranch(xml, Hudson, x, fuel)
    else if Opens(xml, FreeStyleProject) then ProjectBranch(xml, FreeStyleProject, x)
    else if Opens(xml, ListView) then ListBranch(xml, ListView, x, fuel)
    else if Opens(xml, MavenModuleSet) then ProjectBranch(xml, MavenModuleSet, x)
    else if Opens(xml, MatrixProject) then ProjectBranch(xml, MatrixProject, x)
    else Success([])
  }

  /** `remoteJobs.addAll(fromXxxXml(xml))` on the fresh set of a listing branch. */
  function ListBranch(xml: Option<string>, root: string, x: Xml, fuel: nat): (r: Result<seq<JobInfo>>)
    ensures r.Success? ==> JobSet(r.value) && !HasNullName(r.value)
    decreases fuel, 1, 0
  {
    if fuel == 0 then Failure(TooDeep)
    else
      match JobList(xml, root, x, fuel - 1)
      case Failure(e) => Failure(e)
      case Success(jobs) =>
        AddAllIntoEmpty(jobs);
        AddAll([], jobs)
  }

  /**
   * `fromHudsonXml`, `fromListViewXml`: an empty set for an empty document or
   * one with another root; otherwise the merge of the jobs read from every
   * listed job url.
   */
  function JobList(xml: Option<string>, root: string, x: Xml, fuel: nat): (r: Result<seq<JobInfo>>)
    ensures r.Success? ==> JobSet(r.value) && !HasNullName(r.value)
    ensures !Opens(xml, root) ==> r == Success([])
    decreases fuel, 4, 0
  {
    if !Opens(xml, root) then Success([])
    else
      match x.nodeTexts(xml.value, "/" + root + "/job/url")
      case Failure(e) => Failure(e)
      case Success(urls) => Gather([], urls, x, fuel)
  }

  /** `fromXml(fetchUrl(jobUrl + "/api/xml"))`: the jobs behind one listed url. */
  function SubJobs(jobUrl: string, x: Xml, fuel: nat): (r: Result<seq<JobInfo>>)
    ensures r.Success? ==> JobSet(r.value) && !HasNullName(r.value)
    decreases fuel, 3, 0
  {
    match x.fetch(jobUrl + ApiXml)
    case Failure(e) => Failure(e)
    case Success(body) => ParseJobs(Some(body), x, fuel)
  }

  /** The loop of a listing branch: each url's jobs are added to `acc` in turn. */
  function Gather(acc: seq<JobInfo>, urls: seq<string>, x: Xml, fuel: nat): (r: Result<seq<JobInfo>>)
    requires JobSet(acc) && !HasNullName(acc)
    ensures r.Success? ==> JobSet(r.value) && !HasNullName(r.value)
    decreases fuel, 3, |urls| + 1
  {
    if urls == [] then Success(acc)
    else
      match SubJobs(urls[0], x, fuel)
      case Failure(e) => Failure(e)
      case Success(jobs) =>
        match AddAll(acc, jobs)
        case Failure(e) => Failure(e)
        case Success(acc1) =>
          AddAllIsUnion(acc, jobs, acc1);
          NoNullNameFromUnion(acc, jobs, acc1);
          Gather(acc1, urls[1..], x, fuel)
  }

  lemma NoNullNameFromUnion(s: seq<JobInfo>, t: seq<JobInfo>, r: seq<JobInfo>)
    requires !HasNullName(s) && !HasNullName(t)
    requires forall y :: y in r ==> y in s || y in t
    ensures !HasNullName(r)
  {
    forall k | 0 <= k < |r| ensures r[k].name.Some? {
      assert r[k] in r;
    }
  }

  // ---------------------------------------------------------------------------
  // Properties of the dispatch
  // ---------------------------------------------------------------------------

  /** At most one recognised root tag opens a document, so the order of the tests is immaterial. */
  lemma OneRootAtMost(xml: Option<string>, a: string, b: string)
    requires a in {Hudson, FreeStyleProject, ListView, MavenModuleSet, MatrixProject}
    requires b in {Hudson, FreeStyleProject, ListView, MavenModuleSet, MatrixProject}
    requires Opens(xml, a) && Opens(xml, b)
    ensures a == b
  {
    var s := xml.value;
    var pa, pb := "<" + a + ">", "<" + b + ">";
    assert s[..|pa|] == pa && s[..|pb|] == pb;
    assert pa[1] == a[0] && pa[2] == a[1] && pa[3] == a[2];
    assert pb[1] == b[0] && pb[2] == b[1] && pb[3] == b[2];
    assert a[0] == s[1] == b[0] && a[1] == s[2] == b[1] && a[2] == s[3] == b[2];
  }

  /**
   * A single-project document whose three values can be read yields exactly
   * the one job built from them.
   */
  lemma ProjectDocument(xml: Option<string>, root: string, x: Xml, fuel: nat, name: string, url: string, description: string)
    requires root in {FreeStyleProject, MavenModuleSet, MatrixProject} && Opens(xml, root)
    requires x.stringValue(xml.value, "/" + root + "/name") == Success(name)
    requires x.stringValue(xml.value, "/" + root + "/url") == Success(url)
    requires x.stringValue(xml.value, "/" + root + "/description") == Success(description)
    ensures ParseJobs(xml, x, fuel) == Success([JobInfo(Some(name), Some(url), Some(description))])
  {
    if Opens(xml, Hudson) {
      OneRootAtMost(xml, Hudson, root);
    }
    if Opens(xml, ListView) {
      OneRootAtMost(xml, ListView, root);
    }
    if Opens(xml, FreeStyleProject) {
      OneRootAtMost(xml, FreeStyleProject, root);
    }
    if Opens(xml, MavenModuleSet) {
      OneRootAtMost(xml, MavenModuleSet, root);
    }
  }

  /**
   * A listing document (`<hudson>` or `<listView>`) yields, with one level of
   * recursion less, exactly the merge its listing branch builds.
   */
  lemma ListingDocument(xml: Option<string>, root: string, x: Xml, fuel: nat)
    requires root in {Hudson, ListView} && Opens(xml, root) && fuel > 0
    ensures ParseJobs(xml, x, fuel) == JobList(xml, root, x, fuel - 1)
  {
    if Opens(xml, Hudson) {
      OneRootAtMost(xml, Hudson, root);
    }
    if Opens(xml, FreeStyleProject) {
      OneRootAtMost(xml, FreeStyleProject, root);
    }
    assert ParseJobs(xml, x, fuel) == ListBranch(xml, root, x, fuel);
    var listed := JobList(xml, root, x, fuel - 1);
    if listed.Success? {
      AddAllIntoEmpty(listed.value);
    }
  }

  /**
   * A listing merge that succeeds is the union of its parts: every listed url
   * was fetched and read without an exception, every name found behind it is in
   * the result, and every job of the result was already there or was found
   * behind some listed url.
   */
  lemma {:induction false} GatherIsUnion(acc: seq<JobInfo>, urls: seq<string>, x: Xml, fuel: nat, r: seq<JobInfo>)
    requires JobSet(acc) && !HasNullName(acc) && Gather(acc, urls, x, fuel) == Success(r)
    ensures forall k :: 0 <= k < |urls| ==> SubJobs(urls[k], x, fuel).Success?
    ensures forall k :: 0 <= k < |urls| ==> Names(SubJobs(urls[k], x, fuel).value) <= Names(r)
    ensures Names(acc) <= Names(r)
    ensures forall y :: y in r ==> y in acc || exists k :: 0 <= k < |urls| && y in SubJobs(urls[k], x, fuel).value
    decreases |urls|
  {
    if urls != [] {
      var jobs := SubJobs(urls[0], x, fuel).value;
      var acc1 := AddAll(acc, jobs).value;
      AddAllIsUnion(acc, jobs, acc1);
      NoNullNameFromUnion(acc, jobs, acc1);
      GatherIsUnion(acc1, urls[1..], x, fuel, r);
      forall k | 0 <= k < |urls|
        ensures SubJobs(urls[k], x, fuel).Success? && Names(SubJobs(urls[k], x, fuel).value) <= Names(r)
      {
        if k > 0 {
          assert urls[k] == urls[1..][k - 1];
        }
      }
      forall y | y in r ensures y in acc || exists k :: 0 <= k < |urls| && y in SubJobs(urls[k], x, fuel).value {
        if y !in acc1 {
          var k :| 0 <= k < |urls[1..]| && y in SubJobs(urls[1..][k], x, fuel).value;
          assert urls[1..][k] == urls[k + 1];
        } else if y !in acc {
          assert y in SubJobs(urls[0], x, fuel).value;
        }
      }
    }
  }

  // ---------------------------------------------------------------------------
  // The code: fromXml and the loop of the listing branches
  // ---------------------------------------------------------------------------

  /** `RemoteJobUtils.fromXml`, dispatching on the root tag. */
  method FromXml(xml: Option<string>, x: Xml, fuel: nat) returns (r: Result<seq<JobInfo>>)
    ensures r == ParseJobs(xml, x, fuel)
    decreases fuel, 1
  {
    if IsEmpty(xml) {
      return Success([]);
    }
    if Opens(xml, Hudson) || (!Opens(xml, FreeStyleProject) && Opens(xml, ListView)) {
      var root := if Opens(xml, Hudson) then Hudson else ListView;
      if fuel == 0 {
        return Failure(TooDeep);
      }
      var listed := FromJobListXml(xml, root, x, fuel - 1);
      if listed.Failure? {
        return Failure(listed.error);
      }
      r := AddAll([], listed.value);
      AddAllIntoEmpty(listed.value);
    } else if Opens(xml, FreeStyleProject) {
      r := ProjectBranch(xml, FreeStyleProject, x);
    } else if Opens(xml, MavenModuleSet) {
      r := ProjectBranch(xml, MavenModuleSet, x);
    } else if Opens(xml, MatrixProject) {
      r := ProjectBranch(xml, MatrixProject, x);
    } else {
      r := Success([]);
    }
  }

  /** `fromHudsonXml` / `fromListViewXml`: fetch and read each listed job url, adding its jobs. */
  method FromJobListXml(xml: Option<string>, root: string, x: Xml, fuel: nat) returns (r: Result<seq<JobInfo>>)
    ensures r == JobList(xml, root, x, fuel)
    decreases fuel, 2
  {
    if !Opens(xml, root) {
      return Success([]);
    }
    var listed := x.nodeTexts(xml.value, "/" + root + "/job/url");
    if listed.Failure? {
      return Failure(listed.error);
    }
    var urls := listed.value;
    var jobs: seq<JobInfo> := [];
    var i := 0;
    while i < |urls|
      invariant 0 <= i <= |urls|
      invariant JobSet(jobs) && !HasNullName(jobs)
      invariant Gather(jobs, urls[i..], x, fuel) == Gather([], urls, x, fuel)
    {
      var body := x.fetch(urls[i] + ApiXml);
      if body.Failure? {
        return Failure(body.error);
      }
      var found := FromXml(Some(body.value), x, fuel);
      if found.Failure? {
        return Failure(found.error);
      }
      var merged := AddAll(jobs, found.value);
      if merged.Failure? {
        return Failure(merged.error);
      }
      assert urls[i..][1..] == urls[i + 1..];
      AddAllIsUnion(jobs, found.value, merged.value);
      NoNullNameFromUnion(jobs, found.value, merged.value);
      jobs := merged.value;
      i := i + 1;
    }
    r := Success(jobs);
  }
}
