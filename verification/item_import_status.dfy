/**
 * RemoteItemImportStatus: a ledger entry pairing a remote item of the newest
 * model with the outcome of its import. Order, equality and hash are the item's,
 * that is, its `(impl, fullName)` identity and its full name.
 */
module ItemImportStatus {
  import opened Wrappers
  import opened JavaStrings
  import opened ImportMessages
  import RemoteModel

  class RemoteItemImportStatus {
    var remoteJob: Option<RemoteModel.RemoteItem>
    var status: Option<Message>

    /** `RemoteItemImportStatus()`: no item and no status. */
    constructor Empty()
      ensures remoteJob == None && status == None
    {
      remoteJob, status := None, None;
    }

    /** `RemoteItemImportStatus(remoteJob)`: no status yet. */
    constructor Of(remoteJob: Option<RemoteModel.RemoteItem>)
      ensures this.remoteJob == remoteJob && status == None
    {
      this.remoteJob, status := remoteJob, None;
    }

    /** `RemoteItemImportStatus(remoteJob, status)`. */
    constructor (remoteJob: Option<RemoteModel.RemoteItem>, status: Option<Message>)
      ensures this.remoteJob == remoteJob && this.status == status
    {
      this.remoteJob, this.status := remoteJob, status;
    }

    method SetRemoteJob(remoteJob: Option<RemoteModel.RemoteItem>)
      modifies this
      ensures this.remoteJob == remoteJob && status == old(status)
    {
      this.remoteJob := remoteJob;
    }

    method SetStatus(status: Option<Message>)
      modifies this
      ensures this.status == status && remoteJob == old(remoteJob)
    {
      this.status := status;
    }

    /**
     * `compareTo`: zero for the same entry; otherwise the items' `compareTo`: zero
     * for equal items or equal full names, else the full names' order; `None`
     * where a missing item or a null full name makes Java throw.
     */
    function CompareTo(other: RemoteItemImportStatus): (r: Option<int>)
      reads this, other
      ensures this != other && (remoteJob.None? || other.remoteJob.None?) ==> r.None?
      ensures this != other && remoteJob.Some? && other.remoteJob.Some? &&
              remoteJob.value.fullName.Some? && other.remoteJob.value.fullName.Some? ==>
                r.Some? &&
                (r.value == 0 <==> remoteJob.value.fullName == other.remoteJob.value.fullName) &&
                (r.value < 0 <==> Less(remoteJob.value.fullName.value, other.remoteJob.value.fullName.value))
    {
      if this == other then Some(0)
      else if remoteJob.None? || other.remoteJob.None? then None
      else if remoteJob.value.fullName.None? || other.remoteJob.value.fullName.None? then
        RemoteModel.CompareTo(remoteJob.value, other.remoteJob.value)
      else
        RemoteModel.CompareToByFullName(remoteJob.value, other.remoteJob.value);
        RemoteModel.CompareTo(remoteJob.value, other.remoteJob.value)
    }

    /**
     * `equals`: true for the same entry or another entry whose item has the same
     * `impl` and full name; false for anything that is not an entry, or an entry
     * without an item; `None` where this entry has no item and Java throws.
     */
    function Equals(obj: Obj<RemoteItemImportStatus>): (r: Option<bool>)
      reads this, if obj.Instance? then {obj.value} else {}
      ensures r == Some(true) <==>
                obj.Instance? &&
                (obj.value == this ||
                 (remoteJob.Some? && obj.value.remoteJob.Some? &&
                  remoteJob.value.impl == obj.value.remoteJob.value.impl &&
                  remoteJob.value.fullName == obj.value.remoteJob.value.fullName))
      ensures r.None? <==> obj.Instance? && obj.value != this && remoteJob.None?
    {
      match obj
      case NotInstance => Some(false)
      case Instance(o) =>
        if o == this then Some(true)
        else if remoteJob.None? then None
        else Some(RemoteModel.Equals(remoteJob.value,
                                     if o.remoteJob.None? then NotInstance else Instance(o.remoteJob.value)))
    }

    /** `hashCode`: the item's hash of `(fullName, impl)`; `None` without an item. */
    function HashCode(): (r: Option<int>)
      reads this
      ensures r.Some? <==> remoteJob.Some?
      ensures r.Some? ==> -0x8000_0000 <= r.value < 0x8000_0000
    {
      if remoteJob.None? then None else Some(RemoteModel.HashCode(remoteJob.value))
    }
  }

  /** Entries equal by `equals` hash equally (where hashing does not throw). */
  lemma EqualsImpliesSameHash(a: RemoteItemImportStatus, b: RemoteItemImportStatus)
    requires a.Equals(Instance(b)) == Some(true)
    requires a.HashCode().Some? || b.HashCode().Some?
    ensures a.HashCode() == b.HashCode()
  {
  }

  /**
   * `compareTo` does not agree with `equals`: two distinct entries whose items
   * share a full name but differ in `impl` compare as zero without being equal.
   */
  lemma CompareToIgnoresImpl(a: RemoteItemImportStatus, b: RemoteItemImportStatus)
    requires a != b && a.remoteJob.Some? && b.remoteJob.Some?
    requires a.remoteJob.value.fullName.Some? && a.remoteJob.value.fullName == b.remoteJob.value.fullName
    requires a.remoteJob.value.impl != b.remoteJob.value.impl
    ensures a.CompareTo(b) == Some(0) && a.Equals(Instance(b)) == Some(false)
  {
  }
}
