/**
  A process-identifier allocator: a table of 0/1 flags, one per PID in
  300..5000, where 0 means free and 1 means allocated.
*/
module PidManager {
  import opened Wrappers

  const MinPid := 300
  const MaxPid := 5000
  /** The number of PIDs managed, 4701. */
  const Len := MaxPid - MinPid + 1

  /** The index of the first free (zero) slot of `s`, if any. */
  function LowestFree(s: seq<int>): (r: Option<nat>)
    ensures r.Some? ==> r.value < |s| && s[r.value] == 0 && forall j :: 0 <= j < r.value ==> s[j] != 0
    ensures r.None? <==> forall j :: 0 <= j < |s| ==> s[j] != 0
  {
    if s == [] then None
    else if s[0] == 0 then Some(0)
    else match LowestFree(s[1..]) {
      case None => None
      case Some(k) => Some(k + 1)
    }
  }

  /** A free slot with no free slot before it is the one `LowestFree` finds. */
  lemma LowestFreeUnique(s: seq<int>, k: nat)
    requires k < |s| && s[k] == 0
    requires forall j :: 0 <= j < k ==> s[j] != 0
    ensures LowestFree(s) == Some(k)
  {
  }

  /**
    Freeing a PID makes it the next one handed out when no lower PID is free;
    freeing it twice is the same as freeing it once.
  */
  lemma ReleaseThenLowest(s: seq<int>, pid: int)
    requires |s| == Len && MinPid <= pid <= MaxPid
    requires forall j :: 0 <= j < pid - MinPid ==> s[j] != 0
    ensures LowestFree(s[pid - MinPid := 0]) == Some(pid - MinPid)
    ensures s[pid - MinPid := 0][pid - MinPid := 0] == s[pid - MinPid := 0]
  {
    LowestFreeUnique(s[pid - MinPid := 0], pid - MinPid);
  }

  /** A PID handed out lies in 300..5000 and its slot was free. */
  lemma AllocatedInRange(s: seq<int>)
    requires |s| == Len && LowestFree(s).Some?
    ensures MinPid <= LowestFree(s).value + MinPid <= MaxPid
    ensures s[LowestFree(s).value] == 0
  {
  }

  /** The allocator's state: the flag table, absent until it is allocated. */
  class PidLibrary {
    var slots: array?<int>

    ghost predicate Valid()
      reads this
    {
      slots == null || slots.Length == Len
    }

    /** No table yet. */
    constructor ()
      ensures slots == null && Valid()
    {
      slots := null;
    }

    /** Makes a fresh table with every PID free; returns 1. */
    method AllocateMap() returns (status: int)
      modifies this
      ensures Valid() && slots != null && fresh(slots)
      ensures status == 1
      ensures forall k :: 0 <= k < slots.Length ==> slots[k] == 0
    {
      var table := new int[Len];
      for index := 0 to Len
        invariant forall k :: 0 <= k < index ==> table[k] == 0
      {
        table[index] := 0;
      }
      slots := table;
      return 1;
    }

    /**
      Hands out the lowest free PID and marks it allocated; -1 when there is no
      table or no free PID, and then nothing changes.
    */
    method AllocatePid() returns (pid: int)
      requires Valid()
      modifies slots
      ensures slots == null ==> pid == -1
      ensures slots != null ==>
        match LowestFree(old(slots[..])) {
          case None => pid == -1 && slots[..] == old(slots[..])
          case Some(k) => pid == k + MinPid && slots[..] == old(slots[..])[k := 1]
        }
    {
      if slots == null {
        return -1;
      }
      var index := 0;
      while index < Len
        invariant 0 <= index <= Len
        invariant slots[..] == old(slots[..])
        invariant forall j :: 0 <= j < index ==> slots[j] != 0
      {
        if slots[index] == 0 {
          LowestFreeUnique(slots[..], index);
          slots[index] := 1;
          return index + MinPid;
        }
        index := index + 1;
      }
      return -1;
    }

    /**
      Frees `pid`, allocated or not; does nothing when there is no table or
      the PID is outside 300..5000.
    */
    method ReleasePid(pid: int)
      requires Valid()
      modifies slots
      ensures slots != null && (pid < MinPid || pid > MaxPid) ==> slots[..] == old(slots[..])
      ensures slots != null && MinPid <= pid <= MaxPid ==>
        slots[..] == old(slots[..])[pid - MinPid := 0]
    {
      if slots == null {
        return;
      }
      if pid < MinPid || pid > MaxPid {
        return;
      }
      slots[pid - MinPid] := 0;
    }
  }

  /** Releasing a PID and allocating again gives that PID back when no lower one is free. */
  method ReleaseThenAllocate(lib: PidLibrary, pid: int) returns (again: int)
    requires lib.Valid() && lib.slots != null
    requires MinPid <= pid <= MaxPid
    requires forall j :: 0 <= j < pid - MinPid ==> lib.slots[j] != 0
    modifies lib.slots
    ensures again == pid
    ensures lib.slots[..] == old(lib.slots[..])[pid - MinPid := 1]
  {
    lib.ReleasePid(pid);
    ReleaseThenLowest(old(lib.slots[..]), pid);
    again := lib.AllocatePid();
  }
}
