/** The durable table of transaction attempts (client/lib/chain/tx-store.ts). */
module TxStore {
  import opened TxProtocol
  import opened Sorting
  import opened Wrappers

  /** Every patch the sender writes sets the status; a missing part is left as it was. */
  datatype JobPatch = JobPatch(status: Status, replacedBy: Option<Tx>, receipt: Option<Receipt>)

  function StatusOnly(s: Status): JobPatch { JobPatch(s, None, None) }

  function Patched(j: Job, p: JobPatch): Job {
    j.(status := p.status,
       replacedBy := if p.replacedBy.Some? then p.replacedBy else j.replacedBy,
       receipt := if p.receipt.Some? then p.receipt else j.receipt)
  }

  function Find(jobs: seq<Job>, id: string): (r: Option<nat>)
    ensures r.Some? ==> r.value < |jobs| && jobs[r.value].id == id
    ensures r.None? ==> forall j <- jobs :: j.id != id
  {
    if jobs == [] then None
    else if jobs[|jobs| - 1].id == id then Some(|jobs| - 1)
    else Find(jobs[..|jobs| - 1], id)
  }

  lemma FindDistinct(jobs: seq<Job>, k: nat)
    requires DistinctRows(jobs) && k < |jobs|
    ensures Find(jobs, jobs[k].id) == Some(k)
  {}

  predicate IsOpen(key: Key, j: Job) { Mine(key, j) && Open(j.status) }

  predicate AtNonce(key: Key, nonce: nat, j: Job) { Mine(key, j) && j.tx.nonce == nonce }

  function Select(jobs: seq<Job>, want: Job -> bool): (r: seq<Job>)
    ensures forall j :: j in r <==> j in jobs && want(j)
  {
    if jobs == [] then []
    else Select(jobs[..|jobs| - 1], want) + if want(jobs[|jobs| - 1]) then [jobs[|jobs| - 1]] else []
  }

  /** Lowest nonce first, then oldest. */
  predicate ByNonceThenAge(a: Job, b: Job) {
    if a.tx.nonce == b.tx.nonce then a.createdAt <= b.createdAt else a.tx.nonce < b.tx.nonce
  }

  predicate ByAge(a: Job, b: Job) { a.createdAt <= b.createdAt }

  /** Rows in insertion order; ids are unique, and the table's index admits one row per hash. */
  class TxJobTable {
    var jobs: seq<Job>

    ghost predicate Valid()
      reads this
    {
      DistinctRows(jobs)
    }

    constructor ()
      ensures Valid() && jobs == []
    {
      jobs := [];
    }

    /** Refused, and nothing written, when the id or the hash is already there. */
    method Insert(job: Job) returns (ok: bool)
      requires Valid()
      modifies this
      ensures Valid()
      ensures ok <==> FreshRow(old(jobs), job)
      ensures jobs == if ok then old(jobs) + [job] else old(jobs)
    {
      ok := true;
      for k := 0 to |jobs|
        invariant ok <==> FreshRow(jobs[..k], job)
      {
        assert jobs[..k + 1] == jobs[..k] + [jobs[k]];
        if jobs[k].id == job.id || jobs[k].tx == job.tx { ok := false; }
      }
      assert jobs[..|jobs|] == jobs;
      if ok {
        forall k | 0 <= k < |jobs| ensures jobs[k].id != job.id && jobs[k].tx != job.tx {
          assert jobs[k] in jobs;
        }
        jobs := jobs + [job];
      }
    }

    /** Refused for an unknown id; otherwise the row with that id is patched where it stands. */
    method Update(id: string, patch: JobPatch) returns (ok: bool)
      requires Valid()
      modifies this
      ensures Valid()
      ensures ok <==> Find(old(jobs), id).Some?
      ensures jobs == match Find(old(jobs), id)
                      case Some(k) => old(jobs)[k := Patched(old(jobs)[k], patch)]
                      case None => old(jobs)
    {
      match Find(jobs, id)
      case None =>
        ok := false;
      case Some(k) =>
        ok := true;
        jobs := jobs[k := Patched(jobs[k], patch)];
    }

    /** This key's PENDING and SUBMITTED rows, lowest nonce first, and no others. */
    method OpenJobs(key: Key) returns (r: seq<Job>)
      ensures multiset(r) == multiset(Select(jobs, j => IsOpen(key, j)))
      ensures Sorted(r, ByNonceThenAge)
      ensures forall j :: j in r <==> j in jobs && IsOpen(key, j)
    {
      var found := Select(jobs, j => IsOpen(key, j));
      r := SortBy(found, ByNonceThenAge);
      SortMultiset(found, ByNonceThenAge);
      SortSorted(found, ByNonceThenAge);
      SortMembers(found, ByNonceThenAge);
    }

    /** Every attempt at one nonce of this key, oldest first, whatever its status. */
    method ByNonce(key: Key, nonce: nat) returns (r: seq<Job>)
      ensures multiset(r) == multiset(Select(jobs, j => AtNonce(key, nonce, j)))
      ensures Sorted(r, ByAge)
      ensures forall j :: j in r <==> j in jobs && AtNonce(key, nonce, j)
    {
      var found := Select(jobs, j => AtNonce(key, nonce, j));
      r := SortBy(found, ByAge);
      SortMultiset(found, ByAge);
      SortSorted(found, ByAge);
      SortMembers(found, ByAge);
    }
  }
}
