/**
 * RemoteJobImportStatus: a ledger entry pairing a root-package RemoteJob with
 * the outcome of its import. Order, equality and hash are the job's.
 */
module LegacyImportStatus {
  import opened Wrappers
  import opened JavaStrings
  import opened ImportMessages
  import opened LegacyJobs

  /** The value of a ledger entry: the job's fields, if any, and the recorded outcome. */
  datatype StatusInfo = StatusInfo(job: Option<JobInfo>, status: Option<Message>)

  class RemoteJobImportStatus {
    var remoteJob: RemoteJob?
    var status: Option<Message>

    /** The entry's value. */
    function Info(): StatusInfo
      reads this, remoteJob
    {
      StatusInfo(if remoteJob == null then None else Some(remoteJob.Info()), status)
    }

    /** `RemoteJobImportStatus()`: no job and no status. */
    constructor Empty()
      ensures remoteJob == null && status == None
    {
      remoteJob, status := null, None;
    }

    /** `RemoteJobImportStatus(remoteJob)`: no status yet. */
    constructor Of(remoteJob: RemoteJob?)
      ensures this.remoteJob == remoteJob && status == None
    {
      this.remoteJob, status := remoteJob, None;
    }

    /** `RemoteJobImportStatus(remoteJob, status)`. */
    constructor (remoteJob: RemoteJob?, status: Option<Message>)
      ensures this.remoteJob == remoteJob && this.status == status
    {
      this.remoteJob, this.status := remoteJob, status;
    }

    method SetRemoteJob(remoteJob: RemoteJob?)
      modifies this
      ensures this.remoteJob == remoteJob && status == old(status)
    {
      this.remoteJob := remoteJob;
    }

    method SetStatus(status: Option<Message>)
      modifies this
      ensures this.status == status && remoteJob == old(remoteJob)
    {
      this.status := status;
    }

    /**
     * `compareTo`: zero for the same entry; otherwise the jobs' `compareTo`, that
     * is their names' order; `None` where a missing job or a null name makes Java throw.
     */
    function CompareTo(other: RemoteJobImportStatus): (r: Option<int>)
      reads this, other, remoteJob, other.remoteJob
      ensures r == Some(0) <==>
                this == other || (remoteJob != null && other.remoteJob != null &&
                                  (remoteJob == other.remoteJob ||
                                   (remoteJob.name.Some? && remoteJob.name == other.remoteJob.name)))
      ensures this != other && (remoteJob == null || other.remoteJob == null) ==> r.None?
      ensures r.Some? && r.value < 0 <==>
                this != other && remoteJob != null && other.remoteJob != null &&
                remoteJob != other.remoteJob && Ascending(remoteJob.Info(), other.remoteJob.Info())
    {
      if this == other then Some(0)
      else if remoteJob == null || other.remoteJob == null then None
      else remoteJob.CompareTo(other.remoteJob)
    }

    /**
     * `equals`: true for the same entry or another entry whose job equals this
     * one's (same object or equal name); false for anything that is not an entry;
     * `None` where a missing job or a null name makes Java throw.
     */
    function Equals(obj: Obj<RemoteJobImportStatus>): (r: Option<bool>)
      reads this, remoteJob, if obj.Instance? then {obj.value, obj.value.remoteJob} else {}
      ensures r == Some(true) <==>
                obj.Instance? &&
                (obj.value == this ||
                 (remoteJob != null && obj.value.remoteJob != null &&
                  (obj.value.remoteJob == remoteJob ||
                   (remoteJob.name.Some? && remoteJob.name == obj.value.remoteJob.name))))
      ensures !obj.Instance? ==> r == Some(false)
    {
      match obj
      case NotInstance => Some(false)
      case Instance(o) =>
        if o == this then Some(true)
        else if remoteJob == null then None
        else remoteJob.Equals(if o.remoteJob == null then NotInstance else Instance(o.remoteJob))
    }

    /** `hashCode`: the job's hash; `None` where a missing job or a null name makes Java throw. */
    function HashCode(): (r: Option<int>)
      reads this, remoteJob
      ensures r.Some? <==> remoteJob != null && remoteJob.name.Some?
    {
      if remoteJob == null then None else remoteJob.HashCode()
    }
  }

  /** Entries equal by `equals` hash equally (where hashing does not throw). */
  lemma EqualsImpliesSameHash(a: RemoteJobImportStatus, b: RemoteJobImportStatus)
    requires a.Equals(Instance(b)) == Some(true)
    requires a.HashCode().Some? || b.HashCode().Some?
    ensures a.HashCode() == b.HashCode()
  {
  }

  /** On entries with named jobs `compareTo` is antisymmetric and transitive. */
  lemma CompareToIsOrder(a: RemoteJobImportStatus, b: RemoteJobImportStatus, c: RemoteJobImportStatus)
    requires a.remoteJob != null && b.remoteJob != null && c.remoteJob != null
    requires a.remoteJob.name.Some? && b.remoteJob.name.Some? && c.remoteJob.name.Some?
    ensures a.CompareTo(b).value < 0 <==> b.CompareTo(a).value > 0
    ensures a.CompareTo(b).value < 0 && b.CompareTo(c).value < 0 ==> a.CompareTo(c).value < 0
  {
    LegacyJobs.CompareToIsOrder(a.remoteJob, b.remoteJob, c.remoteJob);
    if a == b || b == c {
    } else if a == c {
      LegacyJobs.CompareToIsOrder(a.remoteJob, b.remoteJob, a.remoteJob);
      LessIrreflexive(a.remoteJob.name.value);
    }
  }
}
