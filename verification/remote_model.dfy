/**
 * The remote item tree of model/RemoteItem, model/RemoteFolder and model/RemoteJob.
 *
 * Items are immutable values held in an arena (`seq<RemoteItem>`); the parent
 * back-reference is the index of the owning folder, always smaller than the
 * item's own index, so the parent chain is finite and `FullName` is a recursive
 * function. The only mutable part of the Java model, a folder's live `children`
 * TreeSet, is a strictly sorted sequence of indices per item, held with the arena
 * by the class `RemoteTree`.
 */
module RemoteModel {
  import opened Wrappers
  import opened JavaStrings
  import ItemText

  /** `Constants.SEPARATOR`. */
  const Separator: string := "/"

  /**
   * A remote job or folder. `isFolder` tells the two Java subclasses apart;
   * `fullName` is the value the constructor memoises.
   */
  datatype RemoteItem = RemoteItem(
    name: Option<string>,
    impl: string,
    url: string,
    description: Option<string>,
    parent: Option<nat>,
    isFolder: bool,
    fullName: Option<string>)

  /** The arena and, per item, its children in TreeSet order (empty for jobs). */
  datatype Forest = Forest(items: seq<RemoteItem>, children: seq<seq<nat>>)

  // ---------------------------------------------------------------------------
  // Full names
  // ---------------------------------------------------------------------------

  /** Every parent reference points to an earlier item of the arena. */
  ghost predicate ParentsBelow(items: seq<RemoteItem>)
  {
    forall i :: 0 <= i < |items| && items[i].parent.Some? ==> items[i].parent.value < i
  }

  /**
   * The names from the root ancestor down to item `i`, joined by `/`; a null name
   * is written `null`, as `StringBuilder.insert` writes it.
   */
  function PathText(items: seq<RemoteItem>, i: nat): string
    requires ParentsBelow(items) && i < |items|
    decreases i
  {
    match items[i].parent
    case None => Render(items[i].name)
    case Some(p) => PathText(items, p) + Separator + Render(items[i].name)
  }

  /** A path ends with the item's own rendered name and starts with its parent's path and `/`. */
  lemma PathTextShape(items: seq<RemoteItem>, i: nat)
    requires ParentsBelow(items) && i < |items|
    ensures EndsWith(PathText(items, i), Render(items[i].name))
    ensures items[i].parent.Some? ==>
              StartsWith(PathText(items, i), PathText(items, items[i].parent.value) + Separator)
  {
    var r := PathText(items, i);
    if items[i].parent.Some? {
      var p := items[i].parent.value;
      assert r == (PathText(items, p) + Separator) + Render(items[i].name);
      assert r[|r| - |Render(items[i].name)|..] == Render(items[i].name);
      assert r[..|PathText(items, p) + Separator|] == PathText(items, p) + Separator;
    }
  }

  /**
   * `RemoteItemUtils.fullName` of item `i`: its own name when it has no parent,
   * otherwise the path from the root.
   */
  function FullName(items: seq<RemoteItem>, i: nat): (r: Option<string>)
    requires ParentsBelow(items) && i < |items|
    ensures items[i].parent.None? ==> r == items[i].name
    ensures items[i].parent.Some? ==> r.Some?
  {
    if items[i].parent.None? then items[i].name else Some(PathText(items, i))
  }

  /** The full name of an item with a parent ends with `/` and the item's own rendered name. */
  lemma FullNameEndsWithName(items: seq<RemoteItem>, i: nat)
    requires ParentsBelow(items) && i < |items| && items[i].parent.Some?
    ensures EndsWith(FullName(items, i).value, Separator + Render(items[i].name))
  {
    var p := items[i].parent.value;
    var r := FullName(items, i).value;
    var tail := Separator + Render(items[i].name);
    assert r == PathText(items, p) + tail;
    assert r[|r| - |tail|..] == tail;
  }

  /**
   * The full name of a child is its parent's full name, `/`, and its own name
   * (whenever the parent's full name is not null).
   */
  lemma FullNameOfChild(items: seq<RemoteItem>, i: nat, p: nat)
    requires ParentsBelow(items) && i < |items| && items[i].parent == Some(p)
    requires FullName(items, p).Some?
    ensures FullName(items, i) == Some(FullName(items, p).value + Separator + Render(items[i].name))
  {
    assert p < i;
    if items[p].parent.None? {
      assert PathText(items, p) == Render(items[p].name) == FullName(items, p).value;
    }
  }

  /** Appending to the arena changes no earlier item's path. */
  lemma {:induction false} PathTextStable(items: seq<RemoteItem>, more: seq<RemoteItem>, i: nat)
    requires ParentsBelow(items) && ParentsBelow(items + more) && i < |items|
    ensures PathText(items + more, i) == PathText(items, i)
    decreases i
  {
    assert (items + more)[i] == items[i];
    match items[i].parent
    case None =>
    case Some(p) => PathTextStable(items, more, p);
  }

  lemma FullNameStable(items: seq<RemoteItem>, more: seq<RemoteItem>, i: nat)
    requires ParentsBelow(items) && ParentsBelow(items + more) && i < |items|
    ensures FullName(items + more, i) == FullName(items, i)
  {
    assert (items + more)[i] == items[i];
    if items[i].parent.Some? {
      PathTextStable(items, more, i);
    }
  }

  // ---------------------------------------------------------------------------
  // Construction (RemoteItem / RemoteFolder / RemoteJob constructors)
  // ---------------------------------------------------------------------------

  /**
   * The item the constructor builds as the next arena entry: description
   * cleaned, full name computed from the parent chain and memoised.
   */
  function Build(items: seq<RemoteItem>, name: Option<string>, impl: string, url: string,
                 description: Option<string>, parent: Option<nat>, isFolder: bool): (r: RemoteItem)
    requires ParentsBelow(items)
    requires parent.Some? ==> parent.value < |items|
    ensures r.name == name && r.impl == impl && r.url == url && r.parent == parent && r.isFolder == isFolder
    ensures r.description == ItemText.CleanRemoteString(description)
    ensures r.description.Some? ==> |r.description.value| <= ItemText.MaxStrLen
    ensures ParentsBelow(items + [r]) && r.fullName == FullName(items + [r], |items|)
    ensures parent.Some? ==> r.fullName.Some?
  {
    var fullName := match parent
      case None => name
      case Some(p) => Some(PathText(items, p) + Separator + Render(name));
    var r := RemoteItem(name, impl, url, ItemText.CleanRemoteString(description), parent, isFolder, fullName);
    assert ParentsBelow(items + [r]) by {
      forall i | 0 <= i < |items + [r]| && (items + [r])[i].parent.Some?
        ensures (items + [r])[i].parent.value < i
      {
        if i < |items| { assert (items + [r])[i] == items[i]; }
      }
    }
    if parent.Some? then
      PathTextStable(items, [r], parent.value);
      r
    else
      r
  }

  // ---------------------------------------------------------------------------
  // Identity and order (equals, hashCode, compareTo)
  // ---------------------------------------------------------------------------

  /** `RemoteItem.equals`: same `impl` and same full name; never equal to anything else. */
  predicate Equals(a: RemoteItem, other: Obj<RemoteItem>)
    ensures Equals(a, other) <==> other.Instance? && other.value.fullName == a.fullName && other.value.impl == a.impl
  {
    match other
    case NotInstance => false
    case Instance(b) => a.impl == b.impl && a.fullName == b.fullName
  }

  /** Java's hash of a possibly-null string (0 for null). */
  function NullableHash(s: Option<string>): int
  {
    match s
    case None => 0
    case Some(v) => StringHash(v)
  }

  /** `Objects.hashCode(fullName, impl)`: 31 * (31 + h(fullName)) + h(impl) in `int`. */
  function HashCode(a: RemoteItem): (r: int)
    ensures -0x8000_0000 <= r < 0x8000_0000
  {
    ToInt32(31 * ToInt32(31 + NullableHash(a.fullName)) + StringHash(a.impl))
  }

  /** Equal items hash equally. */
  lemma EqualsImpliesSameHash(a: RemoteItem, b: RemoteItem)
    requires Equals(a, Instance(b))
    ensures HashCode(a) == HashCode(b)
  {
  }

  /**
   * `RemoteItem.compareTo`: 0 for equal items, otherwise the comparison of the
   * full names; `None` where Java throws NullPointerException on a null full name.
   */
  function CompareTo(a: RemoteItem, b: RemoteItem): (r: Option<int>)
    ensures r.None? <==> !Equals(a, Instance(b)) && (a.fullName.None? || b.fullName.None?)
    ensures Equals(a, Instance(b)) ==> r == Some(0)
    ensures r.Some? && r.value != 0 ==> a.fullName.Some? && b.fullName.Some? && a.fullName != b.fullName
  {
    if Equals(a, Instance(b)) then Some(0)
    else if a.fullName.None? || b.fullName.None? then None
    else Some(Compare(a.fullName.value, b.fullName.value))
  }

  /**
   * For non-null full names `compareTo` is zero exactly when the full names
   * coincide (whatever the `impl`s), and otherwise has the sign of the
   * lexicographic order of the full names.
   */
  lemma CompareToByFullName(a: RemoteItem, b: RemoteItem)
    requires a.fullName.Some? && b.fullName.Some?
    ensures CompareTo(a, b).Some?
    ensures CompareTo(a, b) == Some(0) <==> a.fullName == b.fullName
    ensures CompareTo(a, b).value < 0 <==> Less(a.fullName.value, b.fullName.value)
  {
    if a.fullName == b.fullName {
      LessIrreflexive(a.fullName.value);
    }
  }

  /** `compareTo` is antisymmetric and transitive, so it is a valid `Comparable` order. */
  lemma CompareToIsOrder(a: RemoteItem, b: RemoteItem, c: RemoteItem)
    requires a.fullName.Some? && b.fullName.Some? && c.fullName.Some?
    ensures CompareTo(a, b).value == -CompareTo(b, a).value
    ensures CompareTo(a, b).value < 0 && CompareTo(b, c).value < 0 ==> CompareTo(a, c).value < 0
  {
    CompareToByFullName(a, b);
    CompareToByFullName(b, a);
    CompareToByFullName(b, c);
    CompareToByFullName(a, c);
    if !Equals(a, Instance(b)) {
      CompareAntisymmetric(a.fullName.value, b.fullName.value);
    }
    if CompareTo(a, b).value < 0 && CompareTo(b, c).value < 0 {
      LessTransitive(a.fullName.value, b.fullName.value, c.fullName.value);
    }
  }

  /** A job and a folder with the same `impl` and full name are equal. */
  lemma KindDoesNotMatter(a: RemoteItem, b: RemoteItem)
    requires a.impl == b.impl && a.fullName == b.fullName && a.isFolder != b.isFolder
    ensures Equals(a, Instance(b)) && CompareTo(a, b) == Some(0)
  {
  }

  // ---------------------------------------------------------------------------
  // A folder's children: a TreeSet ordered by compareTo
  // ---------------------------------------------------------------------------

  /** The TreeSet key of an item: its full name (children always have one). */
  function Key(it: RemoteItem): string
  {
    if it.fullName.Some? then it.fullName.value else ""
  }

  predicate InArena(items: seq<RemoteItem>, kids: seq<nat>)
  {
    forall k :: 0 <= k < |kids| ==> kids[k] < |items|
  }

  /** Strictly ascending full names: iteration order of the TreeSet. */
  ghost predicate SortedKeys(items: seq<RemoteItem>, kids: seq<nat>)
    requires InArena(items, kids)
  {
    forall a, b :: 0 <= a < b < |kids| ==> Less(Key(items[kids[a]]), Key(items[kids[b]]))
  }

  /** Some element of `kids` has the key. */
  predicate HasKey(items: seq<RemoteItem>, kids: seq<nat>, key: string)
    requires InArena(items, kids)
  {
    exists k :: 0 <= k < |kids| && Key(items[kids[k]]) == key
  }

  /** `HasKey` on a non-empty sequence: the head has the key or the tail does. */
  lemma HasKeyCons(items: seq<RemoteItem>, kids: seq<nat>, key: string)
    requires InArena(items, kids) && kids != []
    ensures HasKey(items, kids, key) <==> Key(items[kids[0]]) == key || HasKey(items, kids[1..], key)
  {
    if HasKey(items, kids, key) && Key(items[kids[0]]) != key {
      var k :| 0 <= k < |kids| && Key(items[kids[k]]) == key;
      assert kids[1..][k - 1] == kids[k];
    }
    if HasKey(items, kids[1..], key) {
      var k :| 0 <= k < |kids[1..]| && Key(items[kids[1..][k]]) == key;
      assert kids[k + 1] == kids[1..][k];
    }
  }

  lemma SortedTail(items: seq<RemoteItem>, kids: seq<nat>)
    requires InArena(items, kids) && SortedKeys(items, kids) && kids != []
    ensures InArena(items, kids[1..]) && SortedKeys(items, kids[1..])
    ensures forall k :: 0 <= k < |kids[1..]| ==> Less(Key(items[kids[0]]), Key(items[kids[1..][k]]))
  {
    assert forall k :: 0 <= k < |kids[1..]| ==> kids[1..][k] == kids[k + 1];
  }

  /**
   * `TreeSet.add` on a folder's children: the new item goes to its place in
   * full-name order, unless an item with the same full name is already there,
   * in which case the set is left as it was.
   */
  function InsertChild(items: seq<RemoteItem>, kids: seq<nat>, c: nat): (r: seq<nat>)
    requires c < |items| && InArena(items, kids)
    ensures InArena(items, r)
    ensures forall x :: x in r ==> x in kids || x == c
    decreases |kids|
  {
    if kids == [] then [c]
    else
      var cmp := Compare(Key(items[c]), Key(items[kids[0]]));
      if cmp < 0 then [c] + kids
      else if cmp == 0 then kids
      else
        var rest := InsertChild(items, kids[1..], c);
        assert forall x :: x in kids[1..] ==> x in kids;
        [kids[0]] + rest
  }

  /**
   * Adding to the children set: the set gains exactly the new item, unless an
   * item with the same full name is already present, in which case nothing
   * changes; either way an item with that full name is present afterwards.
   */
  lemma {:induction false} InsertChildContents(items: seq<RemoteItem>, kids: seq<nat>, c: nat)
    requires c < |items| && InArena(items, kids) && SortedKeys(items, kids)
    ensures forall x :: x in InsertChild(items, kids, c) <==> x in kids || (x == c && !HasKey(items, kids, Key(items[c])))
    ensures HasKey(items, kids, Key(items[c])) ==> InsertChild(items, kids, c) == kids
    ensures HasKey(items, InsertChild(items, kids, c), Key(items[c]))
    decreases |kids|
  {
    var r := InsertChild(items, kids, c);
    var kc := Key(items[c]);
    if kids == [] {
      assert Key(items[r[0]]) == kc;
    } else {
      var k0 := Key(items[kids[0]]);
      HasKeyCons(items, kids, kc);
      SortedTail(items, kids);
      if Compare(kc, k0) < 0 {
        LessIrreflexive(kc);
        assert !HasKey(items, kids[1..], kc) by {
          forall k | 0 <= k < |kids[1..]| ensures Key(items[kids[1..][k]]) != kc {
            LessTransitive(kc, k0, Key(items[kids[1..][k]]));
          }
        }
        assert Key(items[r[0]]) == kc;
      } else if Compare(kc, k0) == 0 {
      } else {
        var rest := InsertChild(items, kids[1..], c);
        InsertChildContents(items, kids[1..], c);
        assert r == [kids[0]] + rest;
        assert kids == [kids[0]] + kids[1..];
        var k :| 0 <= k < |rest| && Key(items[rest[k]]) == kc;
        assert r[k + 1] == rest[k];
      }
    }
  }

  /** Adding to the children set keeps it in strictly ascending full-name order. */
  lemma {:induction false} InsertChildSorted(items: seq<RemoteItem>, kids: seq<nat>, c: nat)
    requires c < |items| && InArena(items, kids) && SortedKeys(items, kids)
    ensures SortedKeys(items, InsertChild(items, kids, c))
    decreases |kids|
  {
    var r := InsertChild(items, kids, c);
    if kids != [] {
      var kc, k0 := Key(items[c]), Key(items[kids[0]]);
      SortedTail(items, kids);
      if Compare(kc, k0) < 0 {
        forall a, b | 0 <= a < b < |r| ensures Less(Key(items[r[a]]), Key(items[r[b]])) {
          if a == 0 && b > 1 {
            LessTransitive(kc, k0, Key(items[r[b]]));
          }
        }
      } else if Compare(kc, k0) > 0 {
        var rest := InsertChild(items, kids[1..], c);
        InsertChildSorted(items, kids[1..], c);
        assert r == [kids[0]] + rest;
        forall b | 0 <= b < |rest| ensures Less(k0, Key(items[rest[b]])) {
          assert rest[b] in rest;
          if rest[b] != c {
            var j :| 0 <= j < |kids[1..]| && kids[1..][j] == rest[b];
          }
        }
        forall a, b | 0 <= a < b < |r| ensures Less(Key(items[r[a]]), Key(items[r[b]])) {
          assert r[b] == rest[b - 1];
          if a > 0 {
            assert r[a] == rest[a - 1];
          }
        }
      }
    }
  }

  // ---------------------------------------------------------------------------
  // Well-formed forests
  // ---------------------------------------------------------------------------

  /** Every member of `kids` names `p` as its parent. */
  ghost predicate ChildrenOf(items: seq<RemoteItem>, kids: seq<nat>, p: nat)
    requires InArena(items, kids)
  {
    forall k :: 0 <= k < |kids| ==> items[kids[k]].parent == Some(p)
  }

  /** Item `i` hangs from a folder, if from anything. */
  ghost predicate ParentIsFolder(items: seq<RemoteItem>, i: nat)
    requires ParentsBelow(items) && i < |items|
  {
    items[i].parent.Some? ==> items[items[i].parent.value].isFolder
  }

  /** Item `i` memoises its computed full name. */
  ghost predicate MemoOk(items: seq<RemoteItem>, i: nat)
    requires ParentsBelow(items) && i < |items|
  {
    items[i].fullName == FullName(items, i)
  }

  /** One child list per item, parents before children, children inside the arena. */
  ghost predicate Linked(f: Forest)
  {
    && |f.children| == |f.items|
    && ParentsBelow(f.items)
    && (forall i :: 0 <= i < |f.children| ==> InArena(f.items, f.children[i]))
  }

  /**
   * Linked, parents are earlier folders, every memoised full name is the computed one,
   * jobs have no children, and a folder's children are items whose parent is
   * that folder, in strictly ascending full-name order.
   */
  ghost predicate WellFormed(f: Forest)
  {
    && Linked(f)
    && (forall i :: 0 <= i < |f.items| ==> ParentIsFolder(f.items, i))
    && (forall i :: 0 <= i < |f.items| ==> MemoOk(f.items, i))
    && (forall i :: 0 <= i < |f.items| ==> KidsOk(f, i))
  }

  /** Item `i` has no children if it is a job; its children name it as parent, in full-name order. */
  ghost predicate KidsOk(f: Forest, i: nat)
    requires Linked(f) && i < |f.items|
  {
    && (!f.items[i].isFolder ==> f.children[i] == [])
    && ChildrenOf(f.items, f.children[i], i)
    && SortedKeys(f.items, f.children[i])
  }

  /** Extending the arena does not change what an index sequence into it says. */
  lemma ExtendKeepsChildren(items: seq<RemoteItem>, more: seq<RemoteItem>, kids: seq<nat>, p: nat)
    requires InArena(items, kids)
    ensures InArena(items + more, kids)
    ensures SortedKeys(items + more, kids) <==> SortedKeys(items, kids)
    ensures ChildrenOf(items + more, kids, p) <==> ChildrenOf(items, kids, p)
  {
    assert forall k :: 0 <= k < |kids| ==> (items + more)[kids[k]] == items[kids[k]];
  }

  /** A valid place to hang a new item: no parent, or an existing folder. */
  predicate ValidParent(f: Forest, parent: Option<nat>)
  {
    parent.Some? ==> parent.value < |f.items| && f.items[parent.value].isFolder
  }

  /** The arena after constructing a new item; it starts without children. */
  function AddItem(f: Forest, name: Option<string>, impl: string, url: string,
                   description: Option<string>, parent: Option<nat>, isFolder: bool): (r: Forest)
    requires Linked(f) && ValidParent(f, parent)
    ensures Linked(r) && (WellFormed(f) ==> WellFormed(r))
    ensures r.items == f.items + [Build(f.items, name, impl, url, description, parent, isFolder)]
    ensures r.children == f.children + [[]]
  {
    var x := Build(f.items, name, impl, url, description, parent, isFolder);
    var r := Forest(f.items + [x], f.children + [[]]);
    forall i | 0 <= i < |f.items| ensures r.items[i] == f.items[i] && r.children[i] == f.children[i] {
    }
    forall i | 0 <= i < |r.children| ensures InArena(r.items, r.children[i]) {
      if i < |f.items| {
        ExtendKeepsChildren(f.items, [x], f.children[i], i);
      }
    }
    AddItemWellFormed(f, x, parent);
    r
  }

  lemma AddItemWellFormed(f: Forest, x: RemoteItem, parent: Option<nat>)
    requires Linked(f) && ValidParent(f, parent) && x.parent == parent
    requires ParentsBelow(f.items + [x]) && x.fullName == FullName(f.items + [x], |f.items|)
    requires Linked(Forest(f.items + [x], f.children + [[]]))
    ensures WellFormed(f) ==> WellFormed(Forest(f.items + [x], f.children + [[]]))
  {
    if !WellFormed(f) {
      return;
    }
    var r := Forest(f.items + [x], f.children + [[]]);
    forall i | 0 <= i < |f.items| ensures r.items[i] == f.items[i] && r.children[i] == f.children[i] {
    }
    forall i | 0 <= i < |r.items| ensures ParentIsFolder(r.items, i) && MemoOk(r.items, i) {
      if i < |f.items| {
        assert ParentIsFolder(f.items, i) && MemoOk(f.items, i);
        FullNameStable(f.items, [x], i);
        if f.items[i].parent.Some? {
          assert r.items[f.items[i].parent.value] == f.items[f.items[i].parent.value];
        }
      } else {
        if parent.Some? {
          assert r.items[parent.value] == f.items[parent.value];
        }
      }
    }
    forall i | 0 <= i < |r.items| ensures KidsOk(r, i) {
      if i < |f.items| {
        assert KidsOk(f, i);
        ExtendKeepsChildren(f.items, [x], f.children[i], i);
      }
    }
  }

  /** The arena after `folder.getChildren().add(c)`. */
  function AddChildTo(f: Forest, p: nat, c: nat): (r: Forest)
    requires Linked(f) && p < |f.items| && f.items[p].isFolder
    requires c < |f.items| && f.items[c].parent == Some(p)
    ensures Linked(r) && (WellFormed(f) ==> WellFormed(r)) && r.items == f.items
    ensures r.children == f.children[p := InsertChild(f.items, f.children[p], c)]
  {
    var kids := InsertChild(f.items, f.children[p], c);
    var r := Forest(f.items, f.children[p := kids]);
    AddChildWellFormed(f, p, c);
    r
  }

  lemma AddChildWellFormed(f: Forest, p: nat, c: nat)
    requires Linked(f) && p < |f.items| && f.items[p].isFolder
    requires c < |f.items| && f.items[c].parent == Some(p)
    ensures WellFormed(f) ==> WellFormed(Forest(f.items, f.children[p := InsertChild(f.items, f.children[p], c)]))
  {
    if !WellFormed(f) {
      return;
    }
    var kids := InsertChild(f.items, f.children[p], c);
    var r := Forest(f.items, f.children[p := kids]);
    assert KidsOk(f, p);
    InsertChildSorted(f.items, f.children[p], c);
    forall i | 0 <= i < |r.items| && i != p ensures KidsOk(r, i) {
      assert KidsOk(f, i);
    }
    assert ChildrenOf(f.items, kids, p) by {
      forall k | 0 <= k < |kids| ensures f.items[kids[k]].parent == Some(p) {
        assert kids[k] in kids;
        if kids[k] != c {
          var j :| 0 <= j < |f.children[p]| && f.children[p][j] == kids[k];
        }
      }
    }
  }

  // ---------------------------------------------------------------------------
  // The live tree
  // ---------------------------------------------------------------------------

  /**
   * All items built during one discovery, with each folder's live children set.
   * Items never change once built; only children sets grow.
   */
  class RemoteTree {
    var items: seq<RemoteItem>
    var children: seq<seq<nat>>

    function Model(): Forest
      reads this
    {
      Forest(items, children)
    }

    ghost predicate Valid()
      reads this
    {
      WellFormed(Model())
    }

    constructor ()
      ensures Valid() && items == [] && children == []
    {
      items := [];
      children := [];
    }

    /**
     * `new RemoteFolder(...)` or `new RemoteJob(...)`: the item is appended to the
     * arena with an empty children set; nothing else changes.
     */
    method NewItem(name: Option<string>, impl: string, url: string, description: Option<string>,
                   parent: Option<nat>, isFolder: bool) returns (i: nat)
      requires Valid() && ValidParent(Model(), parent)
      modifies this
      ensures Valid()
      ensures i == old(|items|)
      ensures Model() == AddItem(old(Model()), name, impl, url, description, parent, isFolder)
      ensures items[i].isFolder == isFolder && !HasChildren(i)
    {
      var r := AddItem(Model(), name, impl, url, description, parent, isFolder);
      i := |items|;
      items, children := r.items, r.children;
    }

    /**
     * `folder.getChildren().add(c)` through the live set: afterwards the folder
     * has children, one of which has `c`'s full name; `added` tells whether the
     * set grew.
     */
    method AddChild(p: nat, c: nat) returns (added: bool)
      requires Valid() && p < |items| && items[p].isFolder
      requires c < |items| && items[c].parent == Some(p)
      modifies this
      ensures Valid() && items == old(items)
      ensures Model() == AddChildTo(old(Model()), p, c)
      ensures added <==> !HasKey(items, old(children)[p], Key(items[c]))
      ensures HasChildren(p)
      ensures HasKey(items, children[p], Key(items[c]))
    {
      assert KidsOk(Model(), p);
      InsertChildContents(items, children[p], c);
      added := !HasKey(items, children[p], Key(items[c]));
      var r := AddChildTo(Model(), p, c);
      children := r.children;
    }

    /** `RemoteFolder.hasChildren`. */
    function HasChildren(f: nat): (r: bool)
      reads this
      requires f < |children|
      ensures r <==> |children[f]| > 0
    {
      children[f] != []
    }
  }
}
