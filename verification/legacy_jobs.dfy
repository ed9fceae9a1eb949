/**
 * The root-package RemoteJob of the first generation: a mutable record of name,
 * url and description whose identity and order are its name alone, and the
 * TreeSet of such jobs that the queries fill.
 */
module LegacyJobs {
  import opened Wrappers
  import opened JavaStrings

  /** The field values of a `RemoteJob`; a null field is `None`. */
  datatype JobInfo = JobInfo(name: Option<string>, url: Option<string>, description: Option<string>)

  /** The message of the NullPointerException a comparison with a null name throws. */
  const NullPointer: string := "java.lang.NullPointerException"

  /**
   * `name.compareTo(otherName)` for names that may be null: `None` where Java
   * throws NullPointerException; otherwise zero exactly on equal names, and
   * negative exactly when the first name comes first lexicographically.
   */
  function CompareNames(a: Option<string>, b: Option<string>): (r: Option<int>)
    ensures r.Some? <==> a.Some? && b.Some?
    ensures r.Some? ==> (r.value == 0 <==> a == b)
    ensures r.Some? ==> (r.value < 0 <==> Less(a.value, b.value))
    ensures r.Some? ==> (r.value > 0 <==> Less(b.value, a.value))
  {
    if a.None? || b.None? then None
    else
      Some(Compare(a.value, b.value))
  }

  /** `String.hashCode` of a name, `None` where Java throws on a null name. */
  function NameHash(name: Option<string>): (r: Option<int>)
    ensures r.Some? <==> name.Some?
    ensures r.Some? ==> -0x8000_0000 <= r.value < 0x8000_0000
  {
    if name.None? then None
    else if name.value == [] then Some(0)
    else Some(StringHash(name.value))
  }

  /** `RemoteJob`: three nullable fields, each overwritten by its own setter. */
  class RemoteJob {
    var name: Option<string>
    var url: Option<string>
    var description: Option<string>

    /** The current field values. */
    function Info(): JobInfo
      reads this
    {
      JobInfo(name, url, description)
    }

    /** `RemoteJob()`: every field null. */
    constructor Empty()
      ensures Info() == JobInfo(None, None, None)
    {
      name, url, description := None, None, None;
    }

    /** `RemoteJob(name)`: url and description null. */
    constructor Named(name: Option<string>)
      ensures Info() == JobInfo(name, None, None)
    {
      this.name, url, description := name, None, None;
    }

    /** `RemoteJob(name, url)`: description null. */
    constructor WithUrl(name: Option<string>, url: Option<string>)
      ensures Info() == JobInfo(name, url, None)
    {
      this.name, this.url, description := name, url, None;
    }

    /** `RemoteJob(name, url, description)`. */
    constructor (name: Option<string>, url: Option<string>, description: Option<string>)
      ensures Info() == JobInfo(name, url, description)
    {
      this.name, this.url, this.description := name, url, description;
    }

    method SetName(name: Option<string>)
      modifies this
      ensures Info() == old(Info()).(name := name)
    {
      this.name := name;
    }

    method SetUrl(url: Option<string>)
      modifies this
      ensures Info() == old(Info()).(url := url)
    {
      this.url := url;
    }

    method SetDescription(description: Option<string>)
      modifies this
      ensures Info() == old(Info()).(description := description)
    {
      this.description := description;
    }

    /**
     * `compareTo`: zero for the same object or another job of the same non-null
     * name; otherwise the names' order; `None` where a null name makes Java throw.
     */
    function CompareTo(other: RemoteJob): (r: Option<int>)
      reads this, other
      ensures r == Some(0) <==> this == other || (name.Some? && name == other.name)
      ensures r.None? <==> this != other && (name.None? || other.name.None?)
      ensures r.Some? && r.value < 0 <==>
                this != other && name.Some? && other.name.Some? && Less(name.value, other.name.value)
    {
      if this == other then Some(0) else CompareNames(name, other.name)
    }

    /**
     * `equals`: true for the same object or another `RemoteJob` of equal name,
     * whatever the urls and descriptions; false for anything that is not a
     * `RemoteJob`; `None` where a null name makes Java throw.
     */
    function Equals(obj: Obj<RemoteJob>): (r: Option<bool>)
      reads this, if obj.Instance? then {obj.value} else {}
      ensures r == Some(true) <==> obj.Instance? && (obj.value == this || (name.Some? && name == obj.value.name))
      ensures r.None? <==> obj.Instance? && obj.value != this && name.None?
    {
      match obj
      case NotInstance => Some(false)
      case Instance(o) =>
        if o == this then Some(true)
        else if name.None? then None
        else Some(name == o.name)
    }

    /** `hashCode`: the name's hash; `None` where a null name makes Java throw. */
    function HashCode(): (r: Option<int>)
      reads this
      ensures r.Some? <==> name.Some?
    {
      NameHash(name)
    }
  }

  /** Equal jobs hash equally, so the `equals`/`hashCode` contract holds. */
  lemma EqualsImpliesSameHash(a: RemoteJob, b: RemoteJob)
    requires a.Equals(Instance(b)) == Some(true)
    ensures a.HashCode() == b.HashCode()
  {
  }

  /** For named jobs, `compareTo` is zero exactly when `equals` holds. */
  lemma CompareToAgreesWithEquals(a: RemoteJob, b: RemoteJob)
    requires a.name.Some? && b.name.Some?
    ensures a.CompareTo(b) == Some(0) <==> a.Equals(Instance(b)) == Some(true)
  {
  }

  /** On named jobs `compareTo` is antisymmetric and transitive: a valid `Comparable` order. */
  lemma CompareToIsOrder(a: RemoteJob, b: RemoteJob, c: RemoteJob)
    requires a.name.Some? && b.name.Some? && c.name.Some?
    ensures a.CompareTo(b).value < 0 <==> b.CompareTo(a).value > 0
    ensures a.CompareTo(b).value < 0 && b.CompareTo(c).value < 0 ==> a.CompareTo(c).value < 0
  {
    if a.CompareTo(b).value < 0 {
      CompareAntisymmetric(a.name.value, b.name.value);
    }
    if b.CompareTo(a).value > 0 {
      CompareAntisymmetric(a.name.value, b.name.value);
    }
    if a.CompareTo(b).value < 0 && b.CompareTo(c).value < 0 {
      LessTransitive(a.name.value, b.name.value, c.name.value);
    }
  }

  // ---------------------------------------------------------------------------
  // TreeSet<RemoteJob>: one job per name, in ascending name order
  // ---------------------------------------------------------------------------

  /** `a` comes strictly before `b` in a set of jobs. */
  predicate Ascending(a: JobInfo, b: JobInfo)
  {
    a.name.Some? && b.name.Some? && Less(a.name.value, b.name.value)
  }

  /**
   * The iteration order of a `TreeSet<RemoteJob>`: names strictly ascending.
   * A job with a null name can only be alone, since comparing it throws.
   */
  ghost predicate JobSet(s: seq<JobInfo>)
  {
    forall i, j :: 0 <= i < j < |s| ==> Ascending(s[i], s[j])
  }

  /** The names present in a set of jobs. */
  function Names(s: seq<JobInfo>): set<Option<string>>
  {
    set k | 0 <= k < |s| :: s[k].name
  }

  predicate HasNullName(s: seq<JobInfo>)
  {
    exists k :: 0 <= k < |s| && s[k].name.None?
  }

  /** In a set of two or more jobs every name is non-null: a null name can only be alone. */
  lemma ManyJobsAreNamed(s: seq<JobInfo>)
    requires JobSet(s) && |s| > 1
    ensures !HasNullName(s)
  {
    forall k | 0 <= k < |s| ensures s[k].name.Some? {
      if k == 0 {
        assert Ascending(s[0], s[1]);
      } else {
        assert Ascending(s[0], s[k]);
      }
    }
  }

  /** Insertion of a named job into a set of named jobs; a present name leaves the set as it is. */
  function Insert(s: seq<JobInfo>, j: JobInfo): (r: seq<JobInfo>)
    requires j.name.Some? && !HasNullName(s)
    ensures forall x :: x in s ==> x in r
    ensures forall x :: x in r ==> x in s || x == j
    ensures |r| <= |s| + 1
    decreases |s|
  {
    if s == [] then [j]
    else if s[0].name == j.name then s
    else if Less(j.name.value, s[0].name.value) then [j] + s
    else
      assert !HasNullName(s[1..]) by {
        forall k | 0 <= k < |s| - 1 ensures s[1..][k].name.Some? {
          assert s[1..][k] == s[k + 1];
        }
      }
      [s[0]] + Insert(s[1..], j)
  }

  /**
   * `TreeSet.add(job)`: the first job goes in without a comparison; after that a
   * null name on either side of a comparison throws; a job whose name is
   * already present leaves the set unchanged.
   */
  function AddJob(s: seq<JobInfo>, j: JobInfo): (r: Result<seq<JobInfo>>)
    ensures r.Failure? <==> s != [] && (j.name.None? || HasNullName(s))
    ensures r.Success? ==> (forall x :: x in s ==> x in r.value) && (forall x :: x in r.value ==> x in s || x == j)
  {
    if s == [] then Success([j])
    else if j.name.None? || HasNullName(s) then Failure(NullPointer)
    else Success(Insert(s, j))
  }

  lemma ConsJobSet(a: JobInfo, t: seq<JobInfo>)
    requires JobSet(t)
    requires forall k :: 0 <= k < |t| ==> Ascending(a, t[k])
    ensures JobSet([a] + t)
  {
    forall i, j | 0 <= i < j < |[a] + t| ensures Ascending(([a] + t)[i], ([a] + t)[j]) {
      if i > 0 {
        assert ([a] + t)[i] == t[i - 1] && ([a] + t)[j] == t[j - 1];
      } else {
        assert ([a] + t)[j] == t[j - 1];
      }
    }
  }

  /** Insertion keeps a set of jobs a set, adds the job exactly when its name is new, and adds its name. */
  lemma {:induction false} InsertKeepsSet(s: seq<JobInfo>, j: JobInfo)
    requires JobSet(s) && j.name.Some? && !HasNullName(s)
    ensures JobSet(Insert(s, j))
    ensures Names(Insert(s, j)) == Names(s) + {j.name}
    ensures j.name in Names(s) ==> Insert(s, j) == s
    ensures j.name !in Names(s) ==> multiset(Insert(s, j)) == multiset(s) + multiset{j}
    decreases |s|, 1
  {
    if s == [] {
    } else if s[0].name == j.name {
      assert s[0].name in Names(s);
    } else if Less(j.name.value, s[0].name.value) {
      forall k | 0 <= k < |s| ensures Ascending(j, s[k]) {
        if k > 0 {
          assert Ascending(s[0], s[k]);
          LessTransitive(j.name.value, s[0].name.value, s[k].name.value);
        }
      }
      ConsJobSet(j, s);
      NamesCons(j, s);
      NameAbsent(s, j);
    } else {
      InsertBehindHead(s, j);
    }
  }

  /** The case of `InsertKeepsSet` where the job goes behind the first element. */
  lemma {:induction false} InsertBehindHead(s: seq<JobInfo>, j: JobInfo)
    requires JobSet(s) && j.name.Some? && !HasNullName(s) && s != []
    requires s[0].name != j.name && !Less(j.name.value, s[0].name.value)
    ensures JobSet(Insert(s, j))
    ensures Names(Insert(s, j)) == Names(s) + {j.name}
    ensures j.name in Names(s) ==> Insert(s, j) == s
    ensures j.name !in Names(s) ==> multiset(Insert(s, j)) == multiset(s) + multiset{j}
    decreases |s|, 0
  {
    var t := s[1..];
    TailOfSet(s);
    InsertKeepsSet(t, j);
    var u := Insert(t, j);
    assert Insert(s, j) == [s[0]] + u;
    LessTotal(j.name.value, s[0].name.value);
    InsertFrom(t, j);
    HeadBeforeAll(s[0], t, j, u);
    ConsJobSet(s[0], u);
    assert s == [s[0]] + t;
    ConsKeepsInsert(s[0], t, j, u);
  }

  /** What inserting into `t` gives, putting the same head before both sides keeps. */
  lemma ConsKeepsInsert(h: JobInfo, t: seq<JobInfo>, j: JobInfo, u: seq<JobInfo>)
    requires h.name != j.name
    requires Names(u) == Names(t) + {j.name}
    requires j.name in Names(t) ==> u == t
    requires j.name !in Names(t) ==> multiset(u) == multiset(t) + multiset{j}
    ensures Names([h] + u) == Names([h] + t) + {j.name}
    ensures j.name in Names([h] + t) ==> [h] + u == [h] + t
    ensures j.name !in Names([h] + t) ==> multiset([h] + u) == multiset([h] + t) + multiset{j}
  {
    NamesCons(h, t);
    NamesCons(h, u);
  }

  /** The tail of a set of named jobs is one, and all of it comes after the head. */
  lemma TailOfSet(s: seq<JobInfo>)
    requires JobSet(s) && !HasNullName(s) && s != []
    ensures JobSet(s[1..]) && !HasNullName(s[1..])
    ensures forall x :: x in s[1..] ==> Ascending(s[0], x)
  {
    var t := s[1..];
    forall a, b | 0 <= a < b < |t| ensures Ascending(t[a], t[b]) {
      assert Ascending(s[a + 1], s[b + 1]);
    }
    forall k | 0 <= k < |t| ensures t[k].name.Some? && Ascending(s[0], t[k]) {
      assert t[k] == s[k + 1];
      assert Ascending(s[0], s[k + 1]);
    }
  }

  /** A job before every job of `t` and before `j` is before everything built from them. */
  lemma HeadBeforeAll(h: JobInfo, t: seq<JobInfo>, j: JobInfo, u: seq<JobInfo>)
    requires forall x :: x in t ==> Ascending(h, x)
    requires Ascending(h, j)
    requires forall x :: x in u ==> x in t || x == j
    ensures forall k :: 0 <= k < |u| ==> Ascending(h, u[k])
  {
    forall k | 0 <= k < |u| ensures Ascending(h, u[k]) {
      assert u[k] in u;
    }
  }

  /** Every element of an insertion result is the inserted job or was there before. */
  lemma {:induction false} InsertFrom(s: seq<JobInfo>, j: JobInfo)
    requires j.name.Some? && !HasNullName(s)
    ensures forall x :: x in Insert(s, j) ==> x in s || x == j
    decreases |s|
  {
    if s != [] && s[0].name != j.name && !Less(j.name.value, s[0].name.value) {
      var t := s[1..];
      assert !HasNullName(t) by {
        forall k | 0 <= k < |t| ensures t[k].name.Some? {
          assert t[k] == s[k + 1];
        }
      }
      InsertFrom(t, j);
      assert Insert(s, j) == [s[0]] + Insert(t, j);
    }
  }

  lemma NamesCons(a: JobInfo, t: seq<JobInfo>)
    ensures Names([a] + t) == {a.name} + Names(t)
  {
    forall k | 0 <= k < |t| ensures ([a] + t)[k + 1] == t[k] { }
    assert ([a] + t)[0] == a;
  }

  lemma NameAbsent(s: seq<JobInfo>, j: JobInfo)
    requires JobSet(s) && s != [] && j.name.Some? && !HasNullName(s)
    requires Less(j.name.value, s[0].name.value)
    ensures j.name !in Names(s)
  {
    if j.name in Names(s) {
      var k :| 0 <= k < |s| && s[k].name == j.name;
      if k == 0 {
        LessIrreflexive(j.name.value);
      } else {
        assert Ascending(s[0], s[k]);
        LessTransitive(j.name.value, s[0].name.value, j.name.value);
        LessIrreflexive(j.name.value);
      }
    }
  }

  /**
   * A successful `add` keeps a set of jobs a set and adds the job's name; the job
   * itself goes in exactly when its name was new, so the first job of a name is
   * the one kept.
   */
  lemma AddJobKeepsSet(s: seq<JobInfo>, j: JobInfo, r: seq<JobInfo>)
    requires JobSet(s) && AddJob(s, j) == Success(r)
    ensures JobSet(r) && Names(r) == Names(s) + {j.name}
    ensures j.name in Names(s) ==> r == s
    ensures j.name !in Names(s) ==> multiset(r) == multiset(s) + multiset{j}
  {
    if s == [] {
      assert Names(r) == {j.name} by {
        assert r[0] == j;
      }
    } else {
      InsertKeepsSet(s, j);
    }
  }

  /** `addAll`: the jobs of `t` added one at a time in `t`'s order; the first exception propagates. */
  function AddAll(s: seq<JobInfo>, t: seq<JobInfo>): (r: Result<seq<JobInfo>>)
    ensures r.Success? ==> (forall x :: x in s ==> x in r.value) && (forall x :: x in r.value ==> x in s || x in t)
    ensures t != [] && s != [] && HasNullName(s) ==> r.Failure?
    decreases |t|
  {
    if t == [] then Success(s)
    else
      match AddJob(s, t[0])
      case Failure(e) => Failure(e)
      case Success(s1) => AddAll(s1, t[1..])
  }

  /**
   * A successful `addAll` is the union by name: the result is a set of jobs, its
   * names are those of both sides, every job already present stays, and every
   * job of the result comes from one side or the other.
   */
  lemma {:induction false} AddAllIsUnion(s: seq<JobInfo>, t: seq<JobInfo>, r: seq<JobInfo>)
    requires JobSet(s) && AddAll(s, t) == Success(r)
    ensures JobSet(r) && Names(r) == Names(s) + Names(t)
    ensures forall x :: x in s ==> x in r
    ensures forall x :: x in r ==> x in s || x in t
    decreases |t|
  {
    if t != [] {
      var s1 := AddJob(s, t[0]).value;
      AddJobKeepsSet(s, t[0], s1);
      AddAllIsUnion(s1, t[1..], r);
      NamesCons(t[0], t[1..]);
      assert t == [t[0]] + t[1..];
      forall x | x in s ensures x in s1 {
        if t[0].name !in Names(s) {
          assert x in multiset(s1);
        }
      }
      forall x | x in s1 ensures x in s || x in t {
        if t[0].name !in Names(s) {
          assert x in multiset(s1);
        }
      }
    }
  }

  /** Inserting a job whose name is larger than every name present appends it. */
  lemma {:induction false} InsertLast(p: seq<JobInfo>, j: JobInfo)
    requires j.name.Some? && !HasNullName(p)
    requires forall k :: 0 <= k < |p| ==> Ascending(p[k], j)
    ensures Insert(p, j) == p + [j]
    decreases |p|
  {
    if p != [] {
      assert Ascending(p[0], j);
      LessIrreflexive(j.name.value);
      if Less(j.name.value, p[0].name.value) {
        LessTransitive(j.name.value, p[0].name.value, j.name.value);
      }
      var t := p[1..];
      assert !HasNullName(t) by {
        forall k | 0 <= k < |t| ensures t[k].name.Some? {
          assert t[k] == p[k + 1];
        }
      }
      forall k | 0 <= k < |t| ensures Ascending(t[k], j) {
        assert t[k] == p[k + 1];
      }
      InsertLast(t, j);
      assert p == [p[0]] + t;
    }
  }

  /** Adding, one at a time, the rest of an ordered run to a non-empty start of it rebuilds the run. */
  lemma {:induction false} AddAllAppends(p: seq<JobInfo>, q: seq<JobInfo>)
    requires p != [] && JobSet(p + q)
    ensures AddAll(p, q) == Success(p + q)
    decreases |q|
  {
    if q != [] {
      var pq := p + q;
      assert !HasNullName(p) && q[0].name.Some? by {
        assert pq[|p|] == q[0];
        assert Ascending(pq[0], pq[|p|]);
        forall k | 0 <= k < |p| ensures p[k].name.Some? {
          assert pq[k] == p[k];
          assert Ascending(pq[k], pq[|p|]);
        }
      }
      forall k | 0 <= k < |p| ensures Ascending(p[k], q[0]) {
        assert pq[k] == p[k] && pq[|p|] == q[0];
      }
      InsertLast(p, q[0]);
      assert AddJob(p, q[0]) == Success(p + [q[0]]);
      assert AddAll(p, q) == AddAll(p + [q[0]], q[1..]);
      assert (p + [q[0]]) + q[1..] == pq;
      AddAllAppends(p + [q[0]], q[1..]);
    } else {
      assert p + q == p;
    }
  }

  /**
   * Adding a whole set of jobs to an empty set copies it: the element-wise
   * `addAll` agrees with TreeSet's bulk copy from a sorted set.
   */
  lemma AddAllIntoEmpty(t: seq<JobInfo>)
    requires JobSet(t)
    ensures AddAll([], t) == Success(t)
  {
    if t != [] {
      assert JobSet([t[0]] + t[1..]) by {
        assert [t[0]] + t[1..] == t;
      }
      AddAllAppends([t[0]], t[1..]);
      assert [t[0]] + t[1..] == t;
    }
  }
}
