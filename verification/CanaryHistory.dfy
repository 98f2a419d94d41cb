/** The archive of Canary reports: at most 64 files, of which a complete archive keeps the new
    report and the nine newest others, whatever the directory order and whichever deletions fail. */
module CanaryHistory {
  import opened Wrappers

  const RETAINED: nat := 10
  const MAX_HISTORY_FILES: nat := 64

  /** Reports are ordered by finishing time, then by operation id. */
  datatype Record = Record(time: nat, id: nat)

  predicate Newer(a: Record, b: Record) {
    a.time > b.time || (a.time == b.time && a.id > b.id)
  }

  predicate Descending(s: seq<Record>) {
    forall i, j :: 0 <= i < j < |s| ==> Newer(s[i], s[j])
  }

  function Elements(s: seq<Record>): set<Record> {
    set x | x in s
  }

  function First(s: seq<Record>, k: nat): seq<Record> {
    if |s| <= k then s else s[..k]
  }

  predicate DistinctIds(files: set<Record>) {
    forall x, y :: x in files && y in files && x.id == y.id ==> x == y
  }

  function Others(files: set<Record>, id: nat): set<Record> {
    set x | x in files && x.id != id
  }

  ghost predicate Above(a: set<Record>, b: set<Record>) {
    forall x, y :: x in a && y in b ==> Newer(x, y)
  }

  /** `top` lists the `k` newest of `files`, newest first. */
  ghost predicate Newest(top: seq<Record>, files: set<Record>, k: nat) {
    && Descending(top)
    && Elements(top) <= files
    && |top| == (if |files| <= k then |files| else k)
    && Above(Elements(top), files - Elements(top))
  }

  // ------------------------------------------------------------------ orders and lists

  lemma {:induction false} DescendingSize(s: seq<Record>)
    requires Descending(s)
    ensures |Elements(s)| == |s|
  {
    if s != [] {
      DescendingSize(s[1..]);
      assert Elements(s) == {s[0]} + Elements(s[1..]);
    }
  }

  lemma Prepending(x: Record, s: seq<Record>)
    requires Descending(s) && Above({x}, Elements(s))
    ensures Descending([x] + s) && Elements([x] + s) == Elements(s) + {x}
  {
    forall i, j | 0 <= i < j < |s| + 1 ensures Newer(([x] + s)[i], ([x] + s)[j]) {
      assert ([x] + s)[j] == s[j - 1];
      assert s[j - 1] in Elements(s);
    }
  }

  lemma Appending(a: seq<Record>, b: seq<Record>)
    requires Descending(a) && Descending(b)
    requires Above(Elements(a), Elements(b))
    ensures Descending(a + b) && Elements(a + b) == Elements(a) + Elements(b)
  {
    forall i, j | 0 <= i < j < |a + b| ensures Newer((a + b)[i], (a + b)[j]) {
      if i < |a| <= j {
        assert a[i] in Elements(a) && b[j - |a|] in Elements(b);
      }
    }
  }

  lemma {:induction false} SortedListIsUnique(a: seq<Record>, b: seq<Record>)
    requires Descending(a) && Descending(b) && Elements(a) == Elements(b)
    ensures a == b
  {
    DescendingSize(a);
    DescendingSize(b);
    if a != [] {
      assert a[0] in Elements(b) && b[0] in Elements(a);
      assert Elements(a[1..]) == Elements(a) - {a[0]};
      assert Elements(b[1..]) == Elements(b) - {b[0]};
      SortedListIsUnique(a[1..], b[1..]);
    }
  }

  lemma {:induction false} NewestExists(files: set<Record>) returns (newest: Record)
    requires files != {}
    ensures newest in files && forall x :: x in files && x != newest ==> Newer(newest, x)
  {
    var some :| some in files;
    if files == {some} {
      newest := some;
    } else {
      var best := NewestExists(files - {some});
      newest := if Newer(best, some) then best else some;
      forall x | x in files && x != newest ensures Newer(newest, x) {
        assert x == some || x == best || (x in files - {some} && Newer(best, x));
      }
    }
  }

  /** The fully sorted history. */
  ghost function Ranking(files: set<Record>): (s: seq<Record>)
    ensures Descending(s) && Elements(s) == files
    decreases |files|
  {
    if files == {} then
      []
    else
      assert exists n :: n in files && forall x :: x in files && x != n ==> Newer(n, x) by {
        var n := NewestExists(files);
      }
      var n :| n in files && forall x :: x in files && x != n ==> Newer(n, x);
      var rest := Ranking(files - {n});
      Prepending(n, rest);
      [n] + rest
  }

  /** The newest `k` are a prefix of the fully sorted history. */
  lemma NewestIsPrefix(top: seq<Record>, files: set<Record>, k: nat)
    requires Newest(top, files, k)
    ensures top == First(Ranking(files), k)
  {
    var rest := Ranking(files - Elements(top));
    Appending(top, rest);
    SortedListIsUnique(top + rest, Ranking(files));
    DescendingSize(Ranking(files));
  }

  lemma FirstIsAbove(s: seq<Record>, k: nat)
    requires Descending(s)
    ensures Descending(First(s, k)) && Elements(First(s, k)) <= Elements(s)
    ensures Above(Elements(First(s, k)), Elements(s) - Elements(First(s, k)))
    ensures |Elements(First(s, k))| == |First(s, k)|
  {
    DescendingSize(First(s, k));
  }

  lemma PrefixIsNewest(files: set<Record>, k: nat)
    ensures Newest(First(Ranking(files), k), files, k)
  {
    DescendingSize(Ranking(files));
    FirstIsAbove(Ranking(files), k);
  }

  /** One of the newest of a larger collection is one of the newest of any part that has it. */
  lemma NewestOfPart(files: set<Record>, part: set<Record>, k: nat, x: Record)
    requires part <= files && x in part && x in Elements(First(Ranking(files), k))
    ensures x in Elements(First(Ranking(part), k))
  {
    PrefixIsNewest(files, k);
    PrefixIsNewest(part, k);
    FirstIsAbove(Ranking(files), k);
    FirstIsAbove(Ranking(part), k);
    var whole, top := Elements(First(Ranking(files), k)), Elements(First(Ranking(part), k));
    if x !in top {
      if |part| <= k {
        SubsetOfSameSize(top, part);
      } else {
        forall y | y in top ensures y in whole {
          assert Newer(y, x);
        }
        SubsetSize(top + {x}, whole);
      }
    }
  }

  lemma SubsetOfSameSize(a: set<Record>, b: set<Record>)
    requires a <= b && |a| == |b|
    ensures a == b
  {
    if x :| x in b && x !in a {
      SubsetSize(a, b - {x});
    }
  }

  // ------------------------------------------------------------------ the streaming sort

  function Insert(x: Record, s: seq<Record>): seq<Record> {
    if s == [] then [x] else if Newer(s[0], x) then [s[0]] + Insert(x, s[1..]) else [x] + s
  }

  /** The newest-first sort of an arbitrary list. */
  function Sorted(s: seq<Record>): seq<Record> {
    if s == [] then [] else Insert(s[0], Sorted(s[1..]))
  }

  predicate Distinct(s: seq<Record>) {
    forall i, j :: 0 <= i < j < |s| ==> s[i] != s[j]
  }

  lemma {:induction false} InsertSorts(x: Record, s: seq<Record>)
    requires Descending(s) && x !in s
    ensures Descending(Insert(x, s)) && Elements(Insert(x, s)) == Elements(s) + {x}
  {
    if s != [] {
      assert Elements(s) == Elements(s[1..]) + {s[0]};
      assert Above({s[0]}, Elements(s[1..]));
      if Newer(s[0], x) {
        InsertSorts(x, s[1..]);
        Prepending(s[0], Insert(x, s[1..]));
      } else {
        Prepending(x, s);
      }
    }
  }

  lemma {:induction false} SortedSorts(s: seq<Record>)
    requires Distinct(s)
    ensures Descending(Sorted(s)) && Elements(Sorted(s)) == Elements(s)
  {
    if s != [] {
      SortedSorts(s[1..]);
      assert s[0] !in Elements(s[1..]);
      assert s[0] !in Elements(Sorted(s[1..]));
      InsertSorts(s[0], Sorted(s[1..]));
      assert Elements(s) == Elements(s[1..]) + {s[0]};
    }
  }

  /** The step below on sets: of the newest `k` and one more, keep the newest `k`. */
  lemma NewestAfterOneMore(top: set<Record>, seen: set<Record>, k: nat, x: Record, kept: set<Record>)
    requires top <= seen && x !in seen && Above(top, seen - top)
    requires kept <= top + {x} && Above(kept, top + {x} - kept)
    requires |top| == (if |seen| <= k then |seen| else k)
    requires |kept| == (if |top| < k then |top| + 1 else k)
    ensures Above(kept, seen + {x} - kept)
  {
    if |seen| <= k {
      SubsetOfSameSize(top, seen);
    } else if x in kept {
      if top + {x} <= kept {
        SubsetSize(top + {x}, kept);
      }
      var dropped :| dropped in top + {x} && dropped !in kept;
      assert Newer(x, dropped);
      forall older | older in seen - top ensures Newer(x, older) {
        assert Newer(dropped, older);
      }
    }
    forall y, older | y in kept && older in seen + {x} - kept ensures Newer(y, older) {
      assert older in top + {x} - kept || older in seen - top;
    }
  }

  /** Keeping only the first `k` after each push loses nothing that a full sort would keep. */
  lemma StreamStep(top: seq<Record>, seen: set<Record>, k: nat, x: Record)
    requires Newest(top, seen, k) && x !in seen
    ensures Newest(First(Sorted(top + [x]), k), seen + {x}, k)
  {
    var sorted := Sorted(top + [x]);
    SortedSorts(top + [x]);
    assert Elements(sorted) == Elements(top) + {x} by {
      assert Elements(top + [x]) == Elements(top) + {x};
    }
    DescendingSize(top);
    DescendingSize(sorted);
    FirstIsAbove(sorted, k);
    NewestAfterOneMore(Elements(top), seen, k, x, Elements(First(sorted, k)));
  }

  /** Reads all records but never holds more than eleven: the result is what a full sort of
      all of them would start with, in whatever order they arrive. */
  method StreamNewest(entries: seq<Record>) returns (records: seq<Record>)
    requires Distinct(entries)
    ensures records == First(Sorted(entries), RETAINED) == First(Ranking(Elements(entries)), RETAINED)
  {
    records := [];
    for n := 0 to |entries|
      invariant Newest(records, Elements(entries[..n]), RETAINED)
    {
      ghost var seen := Elements(entries[..n]);
      assert entries[n] !in seen;
      assert Elements(entries[..n + 1]) == seen + {entries[n]};
      StreamStep(records, seen, RETAINED, entries[n]);
      records := First(Sorted(records + [entries[n]]), RETAINED);
    }
    assert entries[..|entries|] == entries;
    NewestIsPrefix(records, Elements(entries), RETAINED);
    SortedSorts(entries);
    SortedListIsUnique(Sorted(entries), Ranking(Elements(entries)));
  }

  // ------------------------------------------------------------------ leaving one id out

  function Without(s: seq<Record>, id: nat): seq<Record> {
    if s == [] then [] else (if s[0].id == id then [] else [s[0]]) + Without(s[1..], id)
  }

  lemma {:induction false} WithoutShape(s: seq<Record>, id: nat)
    requires Descending(s) && DistinctIds(Elements(s))
    ensures Descending(Without(s, id)) && Elements(Without(s, id)) == Others(Elements(s), id)
    ensures |s| - 1 <= |Without(s, id)| <= |s|
    ensures |Without(s, id)| == |s| <==> (forall x :: x in s ==> x.id != id)
  {
    if s != [] {
      assert Elements(s) == Elements(s[1..]) + {s[0]};
      assert Above({s[0]}, Elements(s[1..]));
      WithoutShape(s[1..], id);
      assert Others(Elements(s), id) ==
        Others(Elements(s[1..]), id) + if s[0].id == id then {} else {s[0]};
      if s[0].id != id {
        Prepending(s[0], Without(s[1..], id));
      }
    }
  }

  /** Nine of the newest ten are others than the archived report, and they are the newest nine. */
  lemma NewestOthers(top: seq<Record>, files: set<Record>, k: nat, id: nat)
    requires Newest(top, files, k + 1) && DistinctIds(files)
    ensures Newest(First(Without(top, id), k), Others(files, id), k)
  {
    var others, all := Without(top, id), Others(files, id);
    WithoutShape(top, id);
    DescendingSize(top);
    DescendingSize(others);
    assert all == files || exists own :: own in files && all == files - {own};
    if |files| <= k + 1 {
      SubsetOfSameSize(Elements(top), files);
    } else {
      SubsetSize(Elements(others), all);
    }
    FirstIsAbove(others, k);
  }

  lemma NewestOfRest(top: seq<Record>, files: set<Record>, rest: set<Record>, k: nat)
    requires Newest(top, files, k) && Elements(top) <= rest <= files
    ensures Newest(top, rest, k)
  {
    DescendingSize(top);
    SubsetSize(Elements(top), rest);
    SubsetSize(rest, files);
  }

  // ------------------------------------------------------------------ the directory

  /** What pruning below `cutoff` leaves when every deletion works. */
  function Pruned(files: set<Record>, id: nat, cutoff: Record): set<Record> {
    set x | x in files && (x.id == id || !Newer(cutoff, x))
  }

  /** The nine newest reports other than the archived one. */
  ghost function Companions(files: set<Record>, id: nat): set<Record> {
    Elements(First(Ranking(Others(files, id)), RETAINED - 1))
  }

  /** Every other report kept finished later than every other report dropped, or at the same
      time under the larger id. */
  ghost predicate DropsOldest(before: set<Record>, after: set<Record>, id: nat) {
    forall x, y :: x in after && x.id != id && y in before && y.id != id && y !in after ==>
      x.time > y.time || (x.time == y.time && x.id > y.id)
  }

  lemma CompanionsAreNewest(files: set<Record>, record: Record)
    ensures Companions(files, record.id) <= Others(files, record.id)
    ensures |Companions(files, record.id)| == if |Others(files, record.id)| < 9 then |Others(files, record.id)| else 9
    ensures DropsOldest(files, {record} + Companions(files, record.id), record.id)
  {
    var others, kept := Others(files, record.id), Companions(files, record.id);
    PrefixIsNewest(others, RETAINED - 1);
    DescendingSize(First(Ranking(others), RETAINED - 1));
    forall x, y | x in kept && y in others - kept ensures x.time > y.time || (x.time == y.time && x.id > y.id) {
      assert Newer(x, y);
    }
  }

  /** Pruning below the last of the newest keeps those. */
  lemma PruneKeeps(top: seq<Record>, files: set<Record>, id: nat)
    requires Descending(top) && top != []
    ensures Elements(top) * files <= Pruned(files, id, top[|top| - 1])
  {
    var last := top[|top| - 1];
    forall x | x in Elements(top) ensures !Newer(last, x) {
      var i :| 0 <= i < |top| && top[i] == x;
    }
  }

  /** Pruning below the last of the newest leaves room for one more. */
  lemma PruneMakesRoom(top: seq<Record>, files: set<Record>, id: nat)
    requires top != [] && Newest(top, files, RETAINED) && DistinctIds(files)
    ensures |Pruned(files, id, top[|top| - 1])| < MAX_HISTORY_FILES
  {
    var last := top[|top| - 1];
    assert last in Elements(top);
    DescendingSize(top);
    if own :| own in files && own.id == id {
      SubsetSize(Pruned(files, id, last), Elements(top) + {own});
    } else {
      SubsetSize(Pruned(files, id, last), Elements(top));
    }
  }

  /** Once the report is in place, the same pruning leaves it and the newest others only. */
  lemma TrimIsExact(record: Record, top: seq<Record>, others: set<Record>)
    requires top != [] && Newest(top, others, RETAINED - 1)
    requires forall x :: x in others ==> x.id != record.id
    ensures Pruned(others + {record}, record.id, top[|top| - 1]) == {record} + Elements(top)
  {
    PruneKeeps(top, others + {record}, record.id);
    assert top[|top| - 1] in Elements(top);
  }

  /** If the newest of all known reports were present, they still are after one archive. */
  lemma StillNewest(before: set<Record>, known: set<Record>, after: set<Record>, reached: set<Record>, record: Record)
    requires before <= known && known <= reached <= known + {record} && DistinctIds(known + {record})
    requires reached == known + after
    requires HoldsNewest(before, known)
    requires Companions(before, record.id) <= after
    requires forall x :: x in before && x.id == record.id ==> x in after || record in after
    ensures HoldsNewest(after, reached)
  {
    forall x | x in Elements(First(Ranking(reached), RETAINED - 1)) ensures x in after {
      FirstIsAbove(Ranking(reached), RETAINED - 1);
      if x in known {
        NewestOfPart(reached, known, RETAINED - 1, x);
        if x.id != record.id {
          NewestOfPart(reached, Others(before, record.id), RETAINED - 1, x);
        }
      }
    }
  }

  /** The nine newest of all known reports are in the directory. */
  ghost predicate HoldsNewest(files: set<Record>, known: set<Record>) {
    Elements(First(Ranking(known), RETAINED - 1)) <= files
  }

  lemma DistinctParts(part: set<Record>, whole: set<Record>)
    requires part <= whole
    ensures DistinctIds(whole) ==> DistinctIds(part)
  {
  }

  lemma AllHeld(files: set<Record>)
    ensures HoldsNewest(files, files)
  {
    FirstIsAbove(Ranking(files), RETAINED - 1);
  }

  class History {
    /** One file per operation id. */
    var files: set<Record>
    // A reliable directory never refuses to be read, written or cleaned.
    const reliable: bool

    constructor (reliable: bool)
      ensures files == {} && this.reliable == reliable
    {
      this.files, this.reliable := {}, reliable;
    }

    /** The directory is read in any order, once per file; a file may turn out unreadable. */
    method ReadDirectory() returns (entries: seq<Record>, complete: bool)
      ensures Distinct(entries) && Elements(entries) <= files
      ensures complete ==> Elements(entries) == files && |entries| == |files|
      ensures complete || !reliable
    {
      entries, complete := [], true;
      var unread := files;
      while unread != {} && complete
        invariant Distinct(entries) && Elements(entries) == files - unread && unread <= files
        invariant |entries| == |files| - |unread|
        invariant complete || !reliable
        decreases |unread|, complete
      {
        complete := *;
        complete := complete || reliable;
        if complete {
          var next :| next in unread;
          assert Elements(entries + [next]) == Elements(entries) + {next};
          assert next !in Elements(entries);
          entries, unread := entries + [next], unread - {next};
        }
      }
    }

    method Inventory() returns (records: seq<Record>, count: nat, readable: bool)
      ensures readable ==> records == First(Ranking(files), RETAINED) && count == |files|
      ensures readable || !reliable
    {
      var entries;
      entries, readable := ReadDirectory();
      records, count := [], |entries|;
      if readable {
        records := StreamNewest(entries);
        SortedListIsUnique(Ranking(Elements(entries)), Ranking(files));
      }
    }

    /** Deletes every report but `id` that is older than `cutoff`, up to the first failure. */
    method Prune(id: nat, cutoff: Record) returns (ok: bool)
      modifies this`files
      ensures Pruned(old(files), id, cutoff) <= files <= old(files)
      ensures ok ==> files == Pruned(old(files), id, cutoff)
      ensures ok || !reliable
    {
      var entries;
      entries, ok := ReadDirectory();
      var complete, i := ok, 0;
      ok := true;
      while i < |entries| && ok
        invariant i <= |entries|
        invariant Pruned(old(files), id, cutoff) <= files <= old(files)
        invariant ok ==> forall j :: 0 <= j < i ==> entries[j] in files ==> entries[j] in Pruned(old(files), id, cutoff)
        invariant ok || !reliable
        decreases |entries| - i, ok
      {
        if entries[i].id != id && Newer(cutoff, entries[i]) {
          ok := *;
          ok := ok || reliable;
          if ok {
            files := files - {entries[i]};
          }
        }
        if ok {
          i := i + 1;
        }
      }
      ok := ok && complete;
      assert ok ==> forall x :: x in files ==> x in Elements(entries);
    }

    /** Writes the report, which may fail before or after the file is in place, then deletes
        everything older than the last of `existing`. */
    method WriteAndTrim(record: Record, existing: seq<Record>) returns (ok: bool)
      requires DistinctIds(files) && Newest(existing, Others(files, record.id), RETAINED - 1)
      modifies this`files
      ensures DistinctIds(files) && files <= old(files) + {record} && |files| <= |old(files)| + 1
      ensures ok ==> files == {record} + Elements(existing)
      ensures Elements(existing) <= files
      ensures ok || !reliable
      ensures forall x :: x in old(files) && x.id == record.id ==> x in files || record in files
    {
      var durable: bool;
      ok, durable := *, *;
      ok := ok || reliable;
      if ok || durable {
        files := Others(files, record.id) + {record};
        SubsetSize(files, old(files) + {record});
      }
      ghost var written := files;
      assert DistinctIds(written);
      if existing != [] {
        if ok {
          ok := Prune(record.id, existing[|existing| - 1]);
          PruneKeeps(existing, written, record.id);
          TrimIsExact(record, existing, Others(old(files), record.id));
          SubsetSize(files, written);
        }
      } else {
        assert Others(old(files), record.id) == {};
      }
    }

    /** Archives one finished report. `fits` tells whether it is within the size limit. */
    method Archive(record: Record, busy: bool, fits: bool) returns (ok: bool)
      requires DistinctIds(files)
      modifies this`files
      ensures DistinctIds(files)
      // Nothing else ever enters the directory, and it never grows past the limit.
      ensures files <= old(files) + {record}
      ensures |files| <= if |old(files)| <= 64 then 64 else |old(files)|
      // A complete archive leaves exactly the report and the nine newest others.
      ensures ok && !busy ==> files == {record} + Companions(old(files), record.id)
      ensures ok && !busy ==>
        && |files| == 1 + (if |Others(old(files), record.id)| < 9 then |Others(old(files), record.id)| else 9)
        && DropsOldest(old(files), files, record.id)
      ensures busy ==> ok && files == old(files)
      ensures !busy && !fits ==> !ok && files == old(files)
      // A full directory recovers as soon as nothing refuses any more.
      ensures reliable ==> ok == (busy || fits)
      // However it ends, those nine are kept, and so is a report of this id.
      ensures Companions(old(files), record.id) <= files
      ensures forall x :: x in old(files) && x.id == record.id ==> x in files || record in files
    {
      ok := busy;
      CompanionsAreNewest(files, record);
      if !busy && fits {
        var records, count, readable := Inventory();
        ok := readable;
        if readable {
          PrefixIsNewest(files, RETAINED);
          NewestOthers(records, files, RETAINED - 1, record.id);
          ghost var existing := First(Without(records, record.id), RETAINED - 1);
          NewestIsPrefix(existing, Others(files, record.id), RETAINED - 1);
          assert Elements(existing) <= Elements(records) by {
            WithoutShape(records, record.id);
            FirstIsAbove(Without(records, record.id), RETAINED - 1);
          }
          if count >= MAX_HISTORY_FILES {
            if records != [] {
              ok := Prune(record.id, records[|records| - 1]);
              PruneKeeps(records, old(files), record.id);
              SubsetSize(files, old(files));
              PruneMakesRoom(records, old(files), record.id);
            }
            if ok {
              var newest, again;
              newest, again, ok := Inventory();
              ok := ok && again < MAX_HISTORY_FILES;
            }
          }
          if ok {
            NewestOfRest(existing, Others(old(files), record.id), Others(files, record.id), RETAINED - 1);
            ok := WriteAndTrim(record, First(Without(records, record.id), RETAINED - 1));
          }
        }
      }
    }

    /** One archive, seen from all reports `known` so far. */
    method ArchiveNext(record: Record, busy: bool, fits: bool, ghost known: set<Record>) returns (ghost reached: set<Record>)
      requires DistinctIds(files) && files <= known
      modifies this`files
      ensures DistinctIds(files) && files <= reached && known <= reached <= known + {record}
      ensures |files| <= if |old(files)| <= 64 then 64 else |old(files)|
      ensures reliable && !busy && fits ==> record in reached
      ensures DistinctIds(known + {record}) && HoldsNewest(old(files), known) ==>
        HoldsNewest(files, reached)
    {
      ghost var before := files;
      var ok := Archive(record, busy, fits);
      reached := known + files;
      if DistinctIds(known + {record}) && HoldsNewest(before, known) {
        StillNewest(before, known, files, reached, record);
      }
    }

    /** Any number of archives, each failing anywhere. While an id always names the same report,
        the nine newest of all reports that ever reached the directory are still there. */
    method ArchiveAll(reports: seq<Record>, busy: seq<bool>, fits: seq<bool>) returns (ghost reached: set<Record>)
      requires |fits| == |busy| == |reports| && DistinctIds(files)
      modifies this`files
      ensures DistinctIds(files)
      ensures |files| <= if |old(files)| <= 64 then 64 else |old(files)|
      ensures files <= reached && old(files) <= reached <= old(files) + Elements(reports)
      ensures reliable ==> forall i :: 0 <= i < |reports| ==> busy[i] || !fits[i] || reports[i] in reached
      ensures DistinctIds(old(files) + Elements(reports)) ==> HoldsNewest(files, reached)
    {
      reached := files;
      AllHeld(files);
      for i := 0 to |reports|
        invariant DistinctIds(files)
        invariant |files| <= if |old(files)| <= 64 then 64 else |old(files)|
        invariant files <= reached && old(files) <= reached <= old(files) + Elements(reports)
        invariant reliable ==> forall j :: 0 <= j < i ==> busy[j] || !fits[j] || reports[j] in reached
        invariant DistinctIds(old(files) + Elements(reports)) ==> HoldsNewest(files, reached)
      {
        assert reports[i] in Elements(reports);
        assert reached + {reports[i]} <= old(files) + Elements(reports);
        DistinctParts(reached + {reports[i]}, old(files) + Elements(reports));
        reached := ArchiveNext(reports[i], busy[i], fits[i], reached);
      }
    }
  }
}
