/**
 * client/RestApiClient.getRemoteItems: discovery of the jobs and folders of a
 * remote Jenkins through its XML API, optionally descending into folders.
 *
 * Fetching and parsing a listing is the oracle `listing`: given the request URL
 * it yields the `<job>` elements of the answer, or a failure standing for any
 * exception thrown while fetching or parsing (credentials are part of it).
 * `Discover` is the functional specification of a walk; `GetRemoteItems` is the
 * imperative walk over the live `RemoteTree`, proved equal to it.
 */
module RestApiClient {
  import opened Wrappers
  import opened JavaStrings
  import opened ItemText
  import opened RemoteModel
  import opened UrlUtils

  /** `Constants.XML_API_QUERY`. */
  const XmlApiQuery: string := "api/xml?tree=jobs[name,url,description]"

  /** The `_class` of a CloudBees folder, the only kind that becomes a `RemoteFolder`. */
  const FolderClass: string := "com.cloudbees.hudson.plugins.folder.Folder"

  /** One `<job>` element: its `_class` attribute ("" when absent) and its content. */
  datatype Entry = Entry(impl: string, element: Element)

  /** Fetching and parsing one listing. */
  type Listing = string -> Result<seq<Entry>>

  /** The outcome of a walk: the arena it leaves and the URLs requested, in order. */
  datatype Walk = Walk(forest: Forest, fetched: seq<string>)

  /** The request for the listing below `url`. */
  function ListingRequest(url: string): (r: string)
    ensures EndsWith(r, XmlApiQuery)
  {
    SafeUrl(url, XmlApiQuery)
  }

  /**
   * `url + "/job" + text(job, "url").split("job")[1]`: the listed item's URL
   * rebased on the URL it was listed from; `None` where Java throws (the element
   * has no single `url`, or its split has no element 1).
   */
  function ChildUrl(url: string, e: Entry): Option<string>
  {
    match Text(e.element, "url")
    case None => None
    case Some(reported) =>
      match SplitAt(reported, "job", 1)
      case None => None
      case Some(piece) => Some(url + "/job" + piece)
  }

  /**
   * A rebased URL needs the element's single `url`; it is the listing URL and
   * `/job` followed by a piece of the reported URL that holds no further `job`.
   */
  lemma ChildUrlShape(url: string, e: Entry)
    ensures ChildUrl(url, e).Some? ==> Text(e.element, "url").Some?
    ensures ChildUrl(url, e).Some? ==>
              var r := ChildUrl(url, e).value;
              StartsWith(r, url + "/job") && IndexOf(r[|url| + 4..], "job").None?
  {
    if ChildUrl(url, e).Some? {
      var reported := Text(e.element, "url").value;
      var piece := SplitAt(reported, "job", 1).value;
      var r := url + "/job" + piece;
      assert r[..|url| + 4] == url + "/job" && r[|url| + 4..] == piece;
    }
  }

  /** The reported URL is cut at its first `job` and at the following one, if any. */
  lemma ChildUrlRebases(url: string, e: Entry, reported: string, i: nat)
    requires Text(e.element, "url") == Some(reported)
    requires IndexOf(reported, "job") == Some(i) && !OnlySeparators(reported[i + 3..], "job")
    ensures ChildUrl(url, e) == Some(url + "/job" + FirstPiece(reported[i + 3..], "job"))
  {
    SplitAfterFirst(reported, "job", i);
  }

  /** Without `job` in the reported URL there is no element 1: the walk stops there. */
  lemma ChildUrlNeedsJob(url: string, e: Entry, reported: string)
    requires Text(e.element, "url") == Some(reported)
    requires IndexOf(reported, "job") == None
    ensures ChildUrl(url, e) == None
  {
    SplitWithoutSeparator(reported, "job");
  }

  /** The item built for an entry that is a folder exactly when its `_class` is the folder class. */
  predicate IsFolderEntry(e: Entry)
  {
    e.impl == FolderClass
  }

  /**
   * Creating the item for entry `e` (a `RemoteFolder` or a `RemoteJob`) and,
   * when there is a parent, adding it to the parent's children.
   */
  function Attach(f: Forest, parent: Option<nat>, e: Entry, jobUrl: string): (r: Forest)
    requires Linked(f) && ValidParent(f, parent)
    ensures Linked(r)
    ensures |r.items| == |f.items| + 1 && Extends(f, r)
    ensures r.items[|f.items|].parent == parent && r.items[|f.items|].impl == e.impl
    ensures r.items[|f.items|].isFolder == IsFolderEntry(e) && r.items[|f.items|].url == jobUrl
    ensures forall j :: 0 <= j < |f.items| ==> KidsKept(f, r, parent, j)
    ensures r.children[|f.items|] == []
    ensures parent.Some? ==> r.children[parent.value] == InsertChild(r.items, f.children[parent.value], |f.items|)
  {
    var f1 := AddItem(f, Text(e.element, "name"), e.impl, jobUrl, Text(e.element, "description"),
                      parent, IsFolderEntry(e));
    if parent.Some? then
      assert f1.items[parent.value] == f.items[parent.value];
      AddChildTo(f1, parent.value, |f.items|)
    else
      f1
  }

  /** Item `j` of `f` is still there, unchanged, in `g`. */
  ghost predicate Kept(f: Forest, g: Forest, j: nat)
  {
    j < |f.items| && j < |g.items| && g.items[j] == f.items[j]
  }

  /** The arena only grows; existing items stay as they were. */
  ghost predicate Extends(f: Forest, g: Forest)
  {
    |f.items| <= |g.items| && forall j :: 0 <= j < |f.items| ==> Kept(f, g, j)
  }

  /**
   * Item `j` of `g`, built by a walk from `f` below `parent`: a folder exactly
   * when its `_class` is the folder class, hanging from `parent` or (recursive
   * walks only) from an item the walk built.
   */
  ghost predicate Built(f: Forest, g: Forest, parent: Option<nat>, recursive: bool, j: nat)
  {
    && j < |g.items|
    && (g.items[j].isFolder <==> g.items[j].impl == FolderClass)
    && (g.items[j].parent == parent || (recursive && g.items[j].parent.Some? && |f.items| <= g.items[j].parent.value))
  }

  /** The children of `j` are the same in `f` and `g`, unless `j` is the parent. */
  ghost predicate KidsKept(f: Forest, g: Forest, parent: Option<nat>, j: nat)
  {
    j < |f.children| && Some(j) != parent ==> j < |g.children| && g.children[j] == f.children[j]
  }

  /**
   * What a walk leaves behind, seen from the arena it started on: each item it
   * built is a folder exactly when its `_class` is the folder class, and hangs
   * from the given parent or (recursive walks only) from a folder built by the
   * same walk; no children set other than the parent's changes.
   */
  ghost predicate Shape(f: Forest, g: Forest, parent: Option<nat>, recursive: bool)
  {
    && (forall j :: |f.items| <= j < |g.items| ==> Built(f, g, parent, recursive, j))
    && (forall j :: 0 <= j < |f.children| ==> KidsKept(f, g, parent, j))
  }

  /**
   * `getRemoteItems(parent, url, credentials, recursive)`: nothing for an empty
   * or null URL; otherwise one request, and on success the entries in order.
   * `fuel` bounds the depth of folder nesting followed. The walk only adds to
   * the arena, and leaves it in the `Shape` of a walk below `parent`.
   */
  function Discover(f: Forest, parent: Option<nat>, url: Option<string>, recursive: bool,
                    listing: Listing, fuel: nat): (r: Walk)
    requires Linked(f) && ValidParent(f, parent)
    ensures Linked(r.forest) && Extends(f, r.forest)
    ensures Shape(f, r.forest, parent, recursive)
    decreases fuel, 2, 0
  {
    if IsEmpty(url) then Walk(f, [])
    else
      var request := ListingRequest(url.value);
      match listing(request)
      case Failure(_) => Walk(f, [request])
      case Success(entries) => Visit(f, parent, url.value, entries, 0, recursive, listing, fuel, [request])
  }

  /**
   * The loop over the entries from `k` on, with the requests so far in `log`.
   * An entry whose URL cannot be rebased ends the walk with what was built.
   */
  function Visit(f: Forest, parent: Option<nat>, url: string, entries: seq<Entry>, k: nat,
                 recursive: bool, listing: Listing, fuel: nat, log: seq<string>): (r: Walk)
    requires Linked(f) && ValidParent(f, parent) && k <= |entries|
    ensures Linked(r.forest) && Extends(f, r.forest)
    ensures Shape(f, r.forest, parent, recursive)
    decreases fuel, 1, |entries| - k
  {
    if k == |entries| || ChildUrl(url, entries[k]).None? then Walk(f, log)
    else
      var w := EntryStep(f, parent, entries[k], ChildUrl(url, entries[k]).value, recursive, listing, fuel);
      var r := Visit(w.forest, parent, url, entries, k + 1, recursive, listing, fuel, log + w.fetched);
      ShapeCompose(f, w.forest, r.forest, parent, recursive);
      r
  }

  /**
   * One entry with its rebased URL: its item is built and attached, and a
   * folder is expanded by a recursive sub-walk when the walk is recursive; the
   * result holds the sub-walk's requests.
   */
  function EntryStep(f: Forest, parent: Option<nat>, e: Entry, jobUrl: string, recursive: bool,
                     listing: Listing, fuel: nat): (r: Walk)
    requires Linked(f) && ValidParent(f, parent)
    ensures Linked(r.forest) && Extends(f, r.forest) && |f.items| < |r.forest.items|
    ensures ValidParent(r.forest, parent)
    ensures Shape(f, r.forest, parent, recursive)
    decreases fuel, 0, 0
  {
    var i: nat := |f.items|;
    var f1 := Attach(f, parent, e, jobUrl);
    assert ValidParent(f1, parent) by {
      if parent.Some? { assert Kept(f, f1, parent.value); }
    }
    AttachShape(f, parent, e, jobUrl, recursive);
    if IsFolderEntry(e) && recursive && fuel > 0 then
      var sub := Discover(f1, Some(i), Some(jobUrl), true, listing, fuel - 1);
      assert ValidParent(sub.forest, parent) by {
        if parent.Some? { assert Kept(f1, sub.forest, parent.value); }
      }
      ShapeNest(f, f1, sub.forest, parent);
      sub
    else
      Walk(f1, [])
  }

  /** Building one entry's item is a walk step of the right shape. */
  lemma AttachShape(f: Forest, parent: Option<nat>, e: Entry, jobUrl: string, recursive: bool)
    requires Linked(f) && ValidParent(f, parent)
    ensures Shape(f, Attach(f, parent, e, jobUrl), parent, recursive)
  {
  }

  /** Walks compose: the shape from `f` to `m` and from `m` to `g` is the shape from `f` to `g`. */
  lemma ShapeCompose(f: Forest, m: Forest, g: Forest, parent: Option<nat>, recursive: bool)
    requires Extends(f, m) && Extends(m, g)
    requires Shape(f, m, parent, recursive) && Shape(m, g, parent, recursive)
    ensures Extends(f, g) && Shape(f, g, parent, recursive)
  {
    ExtendsTransitive(f, m, g);
    forall j | |f.items| <= j < |g.items| ensures Built(f, g, parent, recursive, j) {
      if j < |m.items| {
        assert Built(f, m, parent, recursive, j) && Kept(m, g, j);
      } else {
        assert Built(m, g, parent, recursive, j);
      }
    }
    forall j | 0 <= j < |f.children| ensures KidsKept(f, g, parent, j) {
      assert KidsKept(f, m, parent, j);
      if Some(j) != parent {
        assert KidsKept(m, g, parent, j);
      }
    }
  }

  lemma ExtendsTransitive(f: Forest, m: Forest, g: Forest)
    requires Extends(f, m) && Extends(m, g)
    ensures Extends(f, g)
  {
    forall j | 0 <= j < |f.items| ensures Kept(f, g, j) {
      assert Kept(f, m, j) && Kept(m, g, j);
    }
  }

  /** A sub-walk below the folder just built from `f` keeps the shape of a recursive walk from `f`. */
  lemma ShapeNest(f: Forest, f1: Forest, g: Forest, parent: Option<nat>)
    requires |f.children| == |f.items| && |f1.items| == |f.items| + 1
    requires Extends(f, f1) && Extends(f1, g)
    requires Shape(f, f1, parent, true) && Shape(f1, g, Some(|f.items|), true)
    ensures Extends(f, g) && Shape(f, g, parent, true)
  {
    ExtendsTransitive(f, f1, g);
    forall j | |f.items| <= j < |g.items| ensures Built(f, g, parent, true, j) {
      if j < |f1.items| {
        assert Built(f, f1, parent, true, j) && Kept(f1, g, j);
      } else {
        assert Built(f1, g, Some(|f.items|), true, j);
      }
    }
    forall j | 0 <= j < |f.children| ensures KidsKept(f, g, parent, j) {
      assert KidsKept(f, f1, parent, j);
      if Some(j) != parent {
        assert KidsKept(f1, g, Some(|f.items|), j);
      }
    }
  }

  // ---------------------------------------------------------------------------
  // The walk over the live tree
  // ---------------------------------------------------------------------------

  /** The indices `lo, lo + 1, ..., hi - 1`: items in the order they were built. */
  function Span(lo: nat, hi: nat): (r: seq<nat>)
    requires lo <= hi
    ensures |r| == hi - lo
    decreases hi - lo
  {
    if lo == hi then [] else [lo] + Span(lo + 1, hi)
  }

  /** `Span(lo, hi)` holds `lo + j` at position `j`. */
  lemma {:induction false} SpanAt(lo: nat, hi: nat, j: nat)
    requires lo <= hi && j < hi - lo
    ensures Span(lo, hi)[j] == lo + j
    decreases hi - lo
  {
    if j > 0 {
      SpanAt(lo + 1, hi, j - 1);
    }
  }

  lemma SpanStep(lo: nat, hi: nat)
    requires lo < hi
    ensures Span(lo, hi) == [lo] + Span(lo + 1, hi)
  {
  }

  lemma {:induction false} SpanJoin(a: nat, b: nat, c: nat)
    requires a <= b <= c
    ensures Span(a, b) + Span(b, c) == Span(a, c)
    decreases b - a
  {
    if a < b {
      SpanJoin(a + 1, b, c);
      assert Span(a, b) + Span(b, c) == [a] + (Span(a + 1, b) + Span(b, c));
    }
  }

  /**
   * One entry's item: `new RemoteFolder(...)` or `new RemoteJob(...)`, then
   * `parent.getChildren().add(item)` when there is a parent.
   */
  method AttachEntry(tree: RemoteTree, parent: Option<nat>, e: Entry, jobUrl: string) returns (i: nat)
    requires tree.Valid() && ValidParent(tree.Model(), parent)
    modifies tree
    ensures tree.Valid() && ValidParent(tree.Model(), parent)
    ensures i == old(|tree.items|) && |tree.items| == i + 1
    ensures tree.Model() == Attach(old(tree.Model()), parent, e, jobUrl)
  {
    var folder := e.impl == FolderClass;
    i := tree.NewItem(Text(e.element, "name"), e.impl, jobUrl, Text(e.element, "description"), parent, folder);
    if parent.Some? {
      assert tree.items[parent.value] == old(tree.items)[parent.value];
      var _ := tree.AddChild(parent.value, i);
    }
  }

  /**
   * `RestApiClient.getRemoteItems` over the live tree: builds the items, adds
   * each to its parent's children as it goes, and returns exactly the items it
   * built, in the order built; the new tree is the one `Discover` describes.
   */
  method GetRemoteItems(tree: RemoteTree, parent: Option<nat>, url: Option<string>, recursive: bool,
                        listing: Listing, fuel: nat) returns (items: seq<nat>, ghost fetched: seq<string>)
    requires tree.Valid() && ValidParent(tree.Model(), parent)
    modifies tree
    ensures tree.Valid()
    ensures Discover(old(tree.Model()), parent, url, recursive, listing, fuel) == Walk(tree.Model(), fetched)
    ensures old(|tree.items|) <= |tree.items| && items == Span(old(|tree.items|), |tree.items|)
    decreases fuel, 1
  {
    items, fetched := [], [];
    if IsEmpty(url) {
      return;
    }
    var request := ListingRequest(url.value);
    fetched := [request];
    var doc := listing(request);
    if doc.Failure? {
      return;
    }
    var entries := doc.value;
    ghost var f0 := tree.Model();
    var k := 0;
    while k < |entries|
      invariant 0 <= k <= |entries|
      invariant tree.Valid() && ValidParent(tree.Model(), parent)
      invariant Visit(f0, parent, url.value, entries, 0, recursive, listing, fuel, [request])
             == Visit(tree.Model(), parent, url.value, entries, k, recursive, listing, fuel, fetched)
      invariant |f0.items| <= |tree.items| && items == Span(|f0.items|, |tree.items|)
      decreases |entries| - k
    {
      var jobUrl := ChildUrl(url.value, entries[k]);
      if jobUrl.None? {
        return;
      }
      ghost var n := |tree.items|;
      var added;
      ghost var more;
      added, more := GetEntry(tree, parent, entries[k], jobUrl.value, recursive, listing, fuel);
      SpanJoin(|f0.items|, n, |tree.items|);
      items := items + added;
      fetched := fetched + more;
      k := k + 1;
    }
  }

  /**
   * One turn of the loop of `getRemoteItems`: the entry's item is built and
   * attached, and a folder of a recursive walk is expanded at once; returns the
   * items built, in the order built.
   */
  method GetEntry(tree: RemoteTree, parent: Option<nat>, e: Entry, jobUrl: string, recursive: bool,
                  listing: Listing, fuel: nat)
    returns (added: seq<nat>, ghost fetched: seq<string>)
    requires tree.Valid() && ValidParent(tree.Model(), parent)
    modifies tree
    ensures tree.Valid() && ValidParent(tree.Model(), parent)
    ensures EntryStep(old(tree.Model()), parent, e, jobUrl, recursive, listing, fuel) == Walk(tree.Model(), fetched)
    ensures old(|tree.items|) < |tree.items| && added == Span(old(|tree.items|), |tree.items|)
    decreases fuel, 0, 2
  {
    if e.impl == FolderClass && recursive && fuel > 0 {
      added, fetched := GetFolder(tree, parent, e, jobUrl, listing, fuel);
    } else {
      var i := AttachEntry(tree, parent, e, jobUrl);
      added, fetched := [i], [];
      EntryStepAttaches(old(tree.Model()), parent, e, jobUrl, recursive, listing, fuel);
      SpanStep(i, |tree.items|);
    }
  }

  /** A folder of a recursive walk: its item, then at once the walk of its own listing. */
  method GetFolder(tree: RemoteTree, parent: Option<nat>, e: Entry, jobUrl: string,
                   listing: Listing, fuel: nat)
    returns (added: seq<nat>, ghost fetched: seq<string>)
    requires tree.Valid() && ValidParent(tree.Model(), parent)
    requires IsFolderEntry(e) && fuel > 0
    modifies tree
    ensures tree.Valid()
    ensures EntryStep(old(tree.Model()), parent, e, jobUrl, true, listing, fuel) == Walk(tree.Model(), fetched)
    ensures old(|tree.items|) < |tree.items| && added == Span(old(|tree.items|), |tree.items|)
    decreases fuel, 0, 1
  {
    ghost var before := tree.Model();
    var i := AttachEntry(tree, parent, e, jobUrl);
    added, fetched := GetFolderListing(tree, before, parent, e, jobUrl, i, listing, fuel);
  }

  /** The second half of `GetFolder`: with the folder `i` attached to `before`, the walk of its own listing. */
  method GetFolderListing(tree: RemoteTree, ghost before: Forest, parent: Option<nat>, e: Entry, jobUrl: string,
                          i: nat, listing: Listing, fuel: nat)
    returns (added: seq<nat>, ghost fetched: seq<string>)
    requires Linked(before) && ValidParent(before, parent) && IsFolderEntry(e) && fuel > 0
    requires tree.Valid() && tree.Model() == Attach(before, parent, e, jobUrl)
    requires i == |before.items| && |tree.items| == i + 1
    modifies tree
    ensures tree.Valid()
    ensures EntryStep(before, parent, e, jobUrl, true, listing, fuel) == Walk(tree.Model(), fetched)
    ensures i < |tree.items| && added == Span(i, |tree.items|)
    decreases fuel, 0, 0
  {
    var sub;
    sub, fetched := GetRemoteItems(tree, Some(i), Some(jobUrl), true, listing, fuel - 1);
    EntryStepExpands(before, parent, e, jobUrl, listing, fuel, Walk(tree.Model(), fetched));
    added := [i] + sub;
    SpanStep(i, |tree.items|);
  }

  /** An entry that is not expanded contributes its own item and no request. */
  lemma EntryStepAttaches(f: Forest, parent: Option<nat>, e: Entry, jobUrl: string, recursive: bool,
                          listing: Listing, fuel: nat)
    requires Linked(f) && ValidParent(f, parent)
    requires !(IsFolderEntry(e) && recursive && fuel > 0)
    ensures EntryStep(f, parent, e, jobUrl, recursive, listing, fuel) == Walk(Attach(f, parent, e, jobUrl), [])
  {
  }

  /** A folder of a recursive walk is followed by the walk of its own listing. */
  lemma EntryStepExpands(f: Forest, parent: Option<nat>, e: Entry, jobUrl: string,
                         listing: Listing, fuel: nat, w: Walk)
    requires Linked(f) && ValidParent(f, parent)
    requires IsFolderEntry(e) && fuel > 0
    requires Discover(Attach(f, parent, e, jobUrl), Some(|f.items|), Some(jobUrl), true, listing, fuel - 1) == w
    ensures EntryStep(f, parent, e, jobUrl, true, listing, fuel) == w
  {
  }
}
