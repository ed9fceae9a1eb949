/**
 * utils/RemoteItemUtils: the iterative full-name computation and the look-ups
 * over a sorted set of remote items (first item with a matching URL, and that
 * item with all of its descendants).
 */
module RemoteItemUtils {
  import opened Wrappers
  import opened JavaStrings
  import opened RemoteModel

  // ---------------------------------------------------------------------------
  // fullName
  // ---------------------------------------------------------------------------

  /** The text still to be prepended to `sb` by the parents from `p` up. */
  function Pending(items: seq<RemoteItem>, p: Option<nat>, sb: string): string
    requires ParentsBelow(items) && (p.Some? ==> p.value < |items|)
  {
    match p
    case None => sb
    case Some(q) => PathText(items, q) + Separator + sb
  }

  /**
   * `RemoteItemUtils.fullName(item)`: "" for a null item, the name for a
   * parentless item, otherwise the names of the parent chain, root first, each
   * followed by `/`, then the item's own name.
   */
  method FullNameWalk(items: seq<RemoteItem>, item: Option<nat>) returns (r: Option<string>)
    requires ParentsBelow(items) && (item.Some? ==> item.value < |items|)
    ensures item.None? ==> r == Some("")
    ensures item.Some? ==> r == FullName(items, item.value)
  {
    if item.None? {
      return Some("");
    }
    var i := item.value;
    if items[i].parent.None? {
      return items[i].name;
    }
    var sb := Render(items[i].name);
    var parent: Option<nat> := items[i].parent;
    while parent.Some?
      invariant parent.Some? ==> parent.value < |items|
      invariant Pending(items, parent, sb) == PathText(items, i)
      decreases if parent.Some? then parent.value + 1 else 0
    {
      var q := parent.value;
      sb := Render(items[q].name) + Separator + sb;
      parent := items[q].parent;
    }
    return Some(sb);
  }

  // ---------------------------------------------------------------------------
  // Finding by URL
  // ---------------------------------------------------------------------------

  /** `filter.trim().equals(item.getUrl().trim())`. */
  predicate UrlMatches(it: RemoteItem, filter: string)
  {
    Trim(filter) == Trim(it.url)
  }

  /** The position of the first member of `members`, from `from` on, whose URL matches. */
  function FirstMatch(items: seq<RemoteItem>, members: seq<nat>, filter: string, from: nat): (r: Option<nat>)
    requires InArena(items, members) && from <= |members|
    ensures r.Some? ==> from <= r.value < |members| && UrlMatches(items[members[r.value]], filter)
    ensures r.Some? ==> forall j :: from <= j < r.value ==> !UrlMatches(items[members[j]], filter)
    ensures r.None? ==> forall j :: from <= j < |members| ==> !UrlMatches(items[members[j]], filter)
    decreases |members| - from
  {
    if from == |members| then None
    else if UrlMatches(items[members[from]], filter) then Some(from)
    else FirstMatch(items, members, filter, from + 1)
  }

  /** The position the look-ups stop at: none for an empty or null filter. */
  function Lookup(items: seq<RemoteItem>, members: seq<nat>, filter: Option<string>): Option<nat>
    requires InArena(items, members)
  {
    if IsEmpty(filter) then None else FirstMatch(items, members, filter.value, 0)
  }

  /**
   * `findFirstMAtchingRemoteItem` (and `getRemoteJob`, which delegates to it):
   * the first item in set order whose trimmed URL equals the trimmed filter;
   * null when the filter is empty or nothing matches.
   */
  method FindFirstMatchingRemoteItem(items: seq<RemoteItem>, members: seq<nat>, filter: Option<string>)
    returns (r: Option<nat>)
    requires InArena(items, members)
    ensures IsEmpty(filter) ==> r.None?
    ensures r == match Lookup(items, members, filter) case None => None case Some(k) => Some(members[k])
  {
    r := None;
    if !IsEmpty(filter) {
      var k := 0;
      while k < |members|
        invariant 0 <= k <= |members|
        invariant FirstMatch(items, members, filter.value, 0) == FirstMatch(items, members, filter.value, k)
      {
        if Trim(filter.value) == Trim(items[members[k]].url) {
          return Some(members[k]);
        }
        k := k + 1;
      }
    }
  }

  // ---------------------------------------------------------------------------
  // Descendants
  // ---------------------------------------------------------------------------

  /**
   * What `populateAllChildren(i)` returns: every child in set order, each folder
   * child followed by its own descendants.
   */
  function Descendants(f: Forest, i: nat): (r: seq<nat>)
    requires WellFormed(f) && i < |f.items|
    ensures InArena(f.items, r)
    decreases |f.items| - i, 1, 0
  {
    DescendantsFrom(f, i, 0)
  }

  function DescendantsFrom(f: Forest, i: nat, k: nat): (r: seq<nat>)
    requires WellFormed(f) && i < |f.items| && k <= |f.children[i]|
    ensures InArena(f.items, r)
    decreases |f.items| - i, 0, |f.children[i]| - k
  {
    if k == |f.children[i]| then []
    else
      var c := f.children[i][k];
      assert KidsOk(f, i);
      assert f.items[c].parent == Some(i);
      [c] + (if f.items[c].isFolder then Descendants(f, c) else []) + DescendantsFrom(f, i, k + 1)
  }

  /** One step of the listing: the child at `k`, its own listing, then the rest. */
  lemma DescendantsFromStep(f: Forest, i: nat, k: nat)
    requires WellFormed(f) && i < |f.items| && k < |f.children[i]|
    ensures i < f.children[i][k] < |f.items|
    ensures DescendantsFrom(f, i, k) ==
      [f.children[i][k]]
      + (if f.items[f.children[i][k]].isFolder then Descendants(f, f.children[i][k]) else [])
      + DescendantsFrom(f, i, k + 1)
  {
    assert KidsOk(f, i);
    assert f.items[f.children[i][k]].parent == Some(i);
  }

  lemma AppendAssoc<T>(a: seq<T>, b: seq<T>, c: seq<T>, d: seq<T>)
    ensures a + b + c + d == a + (b + c + d)
  {
  }

  /**
   * `populateAllChildren(folder)`: the depth-first, pre-order listing of the
   * folder's descendants through the live children sets.
   */
  method PopulateAllChildren(tree: RemoteTree, folder: nat) returns (list: seq<nat>)
    requires tree.Valid() && folder < |tree.items| && tree.items[folder].isFolder
    ensures list == Descendants(tree.Model(), folder)
    decreases |tree.items| - folder
  {
    var m := tree.Model();
    list := [];
    var kids := m.children[folder];
    var k := 0;
    while k < |kids|
      invariant 0 <= k <= |kids|
      invariant list + DescendantsFrom(m, folder, k) == Descendants(m, folder)
    {
      var item := kids[k];
      DescendantsFromStep(m, folder, k);
      var sub: seq<nat> := [];
      if m.items[item].isFolder {
        sub := PopulateAllChildren(tree, item);
      }
      assert sub + DescendantsFrom(m, folder, k + 1) ==
        (if m.items[item].isFolder then Descendants(m, item) else []) + DescendantsFrom(m, folder, k + 1);
      AppendAssoc(list, [item], sub, DescendantsFrom(m, folder, k + 1));
      list := list + [item] + sub;
      k := k + 1;
    }
  }

  /**
   * `findRemoteItemAndDescendants`: the first item whose URL matches, followed,
   * when it is a folder, by all of its descendants; empty when the filter is
   * empty or nothing matches.
   */
  method FindRemoteItemAndDescendants(tree: RemoteTree, members: seq<nat>, filter: Option<string>)
    returns (list: seq<nat>)
    requires tree.Valid() && InArena(tree.items, members)
    ensures IsEmpty(filter) ==> list == []
    ensures list == match Lookup(tree.items, members, filter)
      case None => []
      case Some(k) => [members[k]] + (if tree.items[members[k]].isFolder then Descendants(tree.Model(), members[k]) else [])
  {
    list := [];
    if !IsEmpty(filter) {
      var k := 0;
      while k < |members|
        invariant 0 <= k <= |members|
        invariant FirstMatch(tree.items, members, filter.value, 0) == FirstMatch(tree.items, members, filter.value, k)
        invariant list == []
      {
        var item := members[k];
        if Trim(filter.value) == Trim(tree.items[item].url) {
          list := list + [item];
          if tree.items[item].isFolder {
            var sub := PopulateAllChildren(tree, item);
            list := list + sub;
          }
          break;
        }
        k := k + 1;
      }
    }
  }

  // ---------------------------------------------------------------------------
  // What the descendant listing promises
  // ---------------------------------------------------------------------------

  /** `x` lies strictly below `a` on the parent chain. */
  ghost predicate Below(items: seq<RemoteItem>, a: nat, x: nat)
    requires ParentsBelow(items) && x < |items|
    decreases x
  {
    match items[x].parent
    case None => false
    case Some(p) => p == a || Below(items, a, p)
  }

  lemma {:induction false} BelowTransitive(items: seq<RemoteItem>, a: nat, b: nat, x: nat)
    requires ParentsBelow(items) && b < |items| && x < |items|
    requires Below(items, a, b) && Below(items, b, x)
    ensures Below(items, a, x)
    decreases x
  {
    var p := items[x].parent.value;
    if p != b {
      BelowTransitive(items, a, b, p);
    }
  }

  /** Every item listed lies below the folder. */
  lemma {:induction false} DescendantsAreBelow(f: Forest, i: nat)
    requires WellFormed(f) && i < |f.items|
    ensures forall x :: x in Descendants(f, i) ==> Below(f.items, i, x)
    decreases |f.items| - i, 1, 0
  {
    DescendantsFromAreBelow(f, i, 0);
  }

  lemma {:induction false} DescendantsFromAreBelow(f: Forest, i: nat, k: nat)
    requires WellFormed(f) && i < |f.items| && k <= |f.children[i]|
    ensures forall x :: x in DescendantsFrom(f, i, k) ==> Below(f.items, i, x)
    decreases |f.items| - i, 0, |f.children[i]| - k
  {
    if k < |f.children[i]| {
      var c := f.children[i][k];
      assert KidsOk(f, i);
      assert f.items[c].parent == Some(i);
      assert Below(f.items, i, c);
      DescendantsFromAreBelow(f, i, k + 1);
      if f.items[c].isFolder {
        DescendantsAreBelow(f, c);
        forall x | x in Descendants(f, c) ensures Below(f.items, i, x) {
          BelowTransitive(f.items, i, c, x);
        }
      }
    }
  }

  /** Each listed item's parent is the folder itself or an item listed before it. */
  ghost predicate ParentFirst(items: seq<RemoteItem>, d: seq<nat>, root: nat)
    requires InArena(items, d)
  {
    forall k :: 0 <= k < |d| ==>
      items[d[k]].parent == Some(root) || (items[d[k]].parent.Some? && items[d[k]].parent.value in d[..k])
  }

  lemma ParentFirstJoin(items: seq<RemoteItem>, c: nat, s: seq<nat>, rest: seq<nat>, root: nat)
    requires c < |items| && InArena(items, s) && InArena(items, rest)
    requires items[c].parent == Some(root)
    requires ParentFirst(items, s, c) && ParentFirst(items, rest, root)
    ensures InArena(items, [c] + s + rest) && ParentFirst(items, [c] + s + rest, root)
  {
    var d := [c] + s + rest;
    forall k | 0 <= k < |d|
      ensures items[d[k]].parent == Some(root) || (items[d[k]].parent.Some? && items[d[k]].parent.value in d[..k])
    {
      if 1 <= k <= |s| {
        assert d[k] == s[k - 1];
        assert d[..k] == [c] + s[..k - 1];
      } else if k > |s| {
        var j := k - 1 - |s|;
        assert d[k] == rest[j];
        assert d[..k] == [c] + s + rest[..j];
      }
    }
  }

  /** The listing is pre-order: no item comes before its parent. */
  lemma {:induction false} DescendantsParentFirst(f: Forest, i: nat)
    requires WellFormed(f) && i < |f.items|
    ensures ParentFirst(f.items, Descendants(f, i), i)
    decreases |f.items| - i, 1, 0
  {
    DescendantsFromParentFirst(f, i, 0);
  }

  lemma {:induction false} DescendantsFromParentFirst(f: Forest, i: nat, k: nat)
    requires WellFormed(f) && i < |f.items| && k <= |f.children[i]|
    ensures ParentFirst(f.items, DescendantsFrom(f, i, k), i)
    decreases |f.items| - i, 0, |f.children[i]| - k
  {
    if k < |f.children[i]| {
      var c := f.children[i][k];
      assert KidsOk(f, i);
      assert f.items[c].parent == Some(i);
      DescendantsFromParentFirst(f, i, k + 1);
      var s := if f.items[c].isFolder then Descendants(f, c) else [];
      if f.items[c].isFolder {
        DescendantsParentFirst(f, c);
      }
      ParentFirstJoin(f.items, c, s, DescendantsFrom(f, i, k + 1), i);
    }
  }

  /**
   * Nothing is missed: the folder's children, and the children of every listed
   * item, are all listed.
   */
  lemma {:induction false} DescendantsClosed(f: Forest, i: nat)
    requires WellFormed(f) && i < |f.items|
    ensures forall c :: c in f.children[i] ==> c in Descendants(f, i)
    ensures forall y, c :: y in Descendants(f, i) && y < |f.children| && c in f.children[y] ==> c in Descendants(f, i)
    decreases |f.items| - i, 1, 0
  {
    DescendantsFromClosed(f, i, 0);
  }

  lemma {:induction false} DescendantsFromClosed(f: Forest, i: nat, k: nat)
    requires WellFormed(f) && i < |f.items| && k <= |f.children[i]|
    ensures forall j :: k <= j < |f.children[i]| ==> f.children[i][j] in DescendantsFrom(f, i, k)
    ensures forall y, c :: y in DescendantsFrom(f, i, k) && y < |f.children| && c in f.children[y] ==> c in DescendantsFrom(f, i, k)
    decreases |f.items| - i, 0, |f.children[i]| - k
  {
    if k < |f.children[i]| {
      var c0 := f.children[i][k];
      assert KidsOk(f, i);
      assert KidsOk(f, c0);
      assert f.items[c0].parent == Some(i);
      DescendantsFromClosed(f, i, k + 1);
      var s := if f.items[c0].isFolder then Descendants(f, c0) else [];
      var rest := DescendantsFrom(f, i, k + 1);
      var d := DescendantsFrom(f, i, k);
      assert d == [c0] + s + rest;
      if f.items[c0].isFolder {
        DescendantsClosed(f, c0);
      }
      forall y, c | y in d && y < |f.children| && c in f.children[y] ensures c in d {
        if y == c0 {
          assert c in s;
        } else if y in s {
          assert c in s;
        } else {
          assert y in rest;
        }
      }
    }
  }
}
