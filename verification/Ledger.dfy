/** src/core/_process_ledger.py: the ledger of supervised launches, in memory. */
module Ledger {
  import opened Common
  import opened ProcessTree

  type JobId = string

  /** One supervised process. `None` for a supervisor means "owner unknown". */
  datatype Entry = Entry(
    pid: Pid,
    startTime: real,
    jobObject: Option<string>,
    supervisorPid: Option<Pid>,
    supervisorStart: Option<real>)

  /** One key-value pair of the ledger dict. */
  datatype Item = Item(job: JobId, entry: Entry)

  /** Where `job` sits among the items, or their number when it is absent. */
  function IndexOf(items: seq<Item>, job: JobId): (i: nat)
    ensures i <= |items|
    ensures forall k :: 0 <= k < i ==> items[k].job != job
    ensures i < |items| ==> items[i].job == job
  {
    if items == [] || items[0].job == job then 0 else 1 + IndexOf(items[1..], job)
  }

  /** The dict's lookup. */
  function Find(items: seq<Item>, job: JobId): Option<Entry> {
    var i := IndexOf(items, job);
    if i < |items| then Some(items[i].entry) else None
  }

  /** No job is listed twice: the items came from a dict. */
  ghost predicate KeysDistinct(items: seq<Item>) {
    forall i, j :: 0 <= i < j < |items| ==> items[i].job != items[j].job
  }

  lemma FindIs(items: seq<Item>, i: nat)
    requires KeysDistinct(items) && i < |items|
    ensures Find(items, items[i].job) == Some(items[i].entry)
  {
    assert IndexOf(items, items[i].job) == i;
  }

  /** The ledger file and its intra-process lock, as one mutable dict. */
  class LedgerFile {
    var items: seq<Item>

    ghost predicate Valid() reads this {
      KeysDistinct(items)
    }

    constructor ()
      ensures Valid() && items == []
    {
      items := [];
    }

    /** `upsert_entry`: replace in place, or append; no other entry moves or changes. */
    method Upsert(job: JobId, entry: Entry)
      requires Valid()
      modifies this
      ensures Valid()
      ensures forall j :: Find(items, j) == if j == job then Some(entry) else Find(old(items), j)
      ensures forall i :: 0 <= i < |old(items)| ==>
        i < |items| && items[i].job == old(items)[i].job
    {
      var was := items;
      var i := IndexOf(items, job);
      items := if i < |items| then items[i := Item(job, entry)] else items + [Item(job, entry)];
      FindIs(items, i);
      forall j | j != job ensures Find(items, j) == Find(was, j) {
        SameFind(was, items, j);
      }
    }

    /** `remove_entry`: drop one entry, a no-op when it is already gone. */
    method Remove(job: JobId)
      requires Valid()
      modifies this
      ensures Valid()
      ensures forall j :: Find(items, j) == if j == job then None else Find(old(items), j)
      ensures var i := IndexOf(old(items), job);
        items == if i < |old(items)| then old(items)[..i] + old(items)[i + 1..] else old(items)
    {
      var was := items;
      var i := IndexOf(items, job);
      if i < |items| {
        items := items[..i] + items[i + 1..];
        RemovedItems(was, i);
        forall j | j != job ensures Find(items, j) == Find(was, j) {
          SameFind(was, items, j);
        }
      }
    }

    /** `write_ledger`: replace the whole dict. */
    method Write(entries: seq<Item>)
      requires KeysDistinct(entries)
      modifies this
      ensures Valid() && items == entries
    {
      items := entries;
    }
  }

  lemma FindCarries(a: seq<Item>, b: seq<Item>, job: JobId)
    requires KeysDistinct(b) && Find(a, job).Some?
    requires forall x: Item :: x.job == job && x in a ==> x in b
    ensures Find(b, job) == Find(a, job)
  {
    assert a[IndexOf(a, job)] in b;
    var n :| 0 <= n < |b| && b[n] == a[IndexOf(a, job)];
    FindIs(b, n);
  }

  /** Lookup depends only on which item carries the job. */
  lemma SameFind(was: seq<Item>, now: seq<Item>, job: JobId)
    requires KeysDistinct(was) && KeysDistinct(now)
    requires forall x: Item :: x.job == job ==> (x in was <==> x in now)
    ensures Find(now, job) == Find(was, job)
  {
    if Find(was, job).Some? {
      FindCarries(was, now, job);
    } else if Find(now, job).Some? {
      FindCarries(now, was, job);
    }
  }

  lemma RemovedItems(items: seq<Item>, i: nat)
    requires i < |items|
    ensures forall k :: 0 <= k < |items| && k != i ==> items[k] in items[..i] + items[i + 1..]
    ensures forall x :: x in items[..i] + items[i + 1..] ==> x in items
  {
    var rest := items[..i] + items[i + 1..];
    forall k | 0 <= k < |items| && k != i ensures items[k] in rest {
      assert items[k] == rest[if k < i then k else k - 1];
    }
  }
}
