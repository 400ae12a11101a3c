/** What each verdict of the job map says about the records themselves, link by link and without the index. */
module JobVerdict {
  import opened Text
  import opened Job
  import opened JobMap
  import opened JobGraph

  // ----- The shape of a job block, in ASCII codes -----

  /** Letters, digits, dot, underscore, colon and dash. */
  ghost predicate NameShaped(s: string) {
    1 <= |s| <= 128 && forall c :: c in s ==>
      var n := c as int; n == 45 || n == 46 || 48 <= n <= 58 || 65 <= n <= 90 || n == 95 || 97 <= n <= 122
  }

  ghost predicate HashShaped(s: string) {
    |s| == 64 && forall c :: c in s ==> var n := c as int; 48 <= n <= 57 || 97 <= n <= 102
  }

  ghost predicate ListShaped(hashes: seq<string>, limit: nat) {
    && |hashes| <= limit
    && (forall k :: 0 <= k < |hashes| ==> HashShaped(hashes[k]))
    && forall k :: 0 < k < |hashes| ==> Less(hashes[k - 1], hashes[k])
  }

  ghost predicate Shaped(j: JobLink) {
    NameShaped(j.jobId) && NameShaped(j.stepId) && ListShaped(j.previous, 64) && ListShaped(j.external, 16)
  }

  lemma {:induction false} NamesAgree(s: string)
    ensures ValidName(s) <==> NameShaped(s)
  {
    forall c: char ensures NameChar(c) <==>
      var n := c as int; n == 45 || n == 46 || 48 <= n <= 58 || 65 <= n <= 90 || n == 95 || 97 <= n <= 122 {}
  }

  lemma {:induction false} HashesAgree(s: string)
    ensures ValidHash(s) <==> HashShaped(s)
  {
    forall c: char ensures LowerHex(c) <==> var n := c as int; 48 <= n <= 57 || 97 <= n <= 102 {}
  }

  lemma {:induction false} InOrder(hashes: seq<string>, i: nat, j: nat)
    requires i < j < |hashes| && forall k :: 0 < k < |hashes| ==> Less(hashes[k - 1], hashes[k])
    ensures Less(hashes[i], hashes[j])
  {
    assert Less(hashes[j - 1], hashes[j]);
    if i < j - 1 {
      InOrder(hashes, i, j - 1);
      LessTransitive(hashes[i], hashes[j - 1], hashes[j]);
    }
  }

  lemma {:induction false} ListsAgree(hashes: seq<string>, limit: nat)
    ensures ValidHashList(hashes, limit) <==> ListShaped(hashes, limit)
  {
    hide ValidHash, HashShaped, Less;
    forall k | 0 <= k < |hashes| ensures ValidHash(hashes[k]) <==> HashShaped(hashes[k]) { HashesAgree(hashes[k]); }
    if ListShaped(hashes, limit) {
      forall i, j | 0 <= i < j < |hashes| ensures Less(hashes[i], hashes[j]) { InOrder(hashes, i, j); }
    }
  }

  /** A job block is valid exactly when it has that shape: at most 64 and 16 links, each list in order. */
  lemma {:induction false} ValidIffShaped(j: JobLink)
    ensures Valid(j) <==> Shaped(j)
  {
    hide ValidName, NameShaped, ValidHashList, ListShaped;
    NamesAgree(j.jobId);
    NamesAgree(j.stepId);
    ListsAgree(j.previous, 64);
    ListsAgree(j.external, 16);
  }

  // ----- The job being checked -----

  /** Some record names this hash as a link to another account. */
  ghost predicate Linked(records: seq<Record>, h: string) {
    exists r :: r in records && r.job.Some? && h in r.job.value.external
  }

  /** The record that names the job: the first with a job block that no record links to from another account. */
  lemma {:induction false} MainJobIs(records: seq<Record>, i: nat)
    requires i < |records| && records[i].job.Some? && !Linked(records, records[i].hash)
    requires forall k :: 0 <= k < i ==> records[k].job.None? || Linked(records, records[k].hash)
    ensures MainJob(records) == records[i].job.value.jobId
  {
    assert forall h :: h in Externals(records) <==> Linked(records, h);
    FirstJobAt(records, Externals(records), i);
  }

  lemma {:induction false} FirstJobAt(records: seq<Record>, external: set<string>, i: nat)
    requires i < |records| && records[i].job.Some? && records[i].hash !in external
    requires forall k :: 0 <= k < i ==> records[k].job.None? || records[k].hash in external
    ensures FirstJob(records, external) == records[i].job.value.jobId
  {
    if i > 0 { FirstJobAt(records[1..], external, i - 1); }
  }

  // ----- Faults -----

  ghost predicate Belongs(r: Record, id: string) { r.job.Some? && r.job.value.jobId == id }

  /** What can be wrong with one record: it fails, carries no job, is a stranger, or its job block is malformed. */
  ghost predicate RecordFault(records: seq<Record>, id: string, r: Record) {
    || r.reason != ""
    || r.job.None?
    || (r.job.value.jobId != id && !Linked(records, r.hash))
    || (r.job.value.jobId == id && !Shaped(r.job.value))
  }

  /** A record or a step that is there twice. */
  ghost predicate Twice(records: seq<Record>, id: string, i: nat, j: nat) {
    && i < j < |records| && Belongs(records[i], id) && Belongs(records[j], id)
    && (records[i].hash == records[j].hash || records[i].job.value.stepId == records[j].job.value.stepId)
  }

  /** A step that follows a record which is not here. */
  ghost predicate Missing(records: seq<Record>, id: string, r: Record, h: string) {
    && r in records && Belongs(r, id) && h in r.job.value.previous
    && forall q :: q in records && Belongs(q, id) ==> q.hash != h
  }

  ghost predicate BothFinal(records: seq<Record>, id: string, i: nat, j: nat) {
    && i < j < |records| && Belongs(records[i], id) && Belongs(records[j], id)
    && records[i].job.value.final && records[j].job.value.final
  }

  /** A step left without one after it, in a job that a final step closes. */
  ghost predicate Dropped(records: seq<Record>, id: string, f: Record, r: Record) {
    && f in records && Belongs(f, id) && f.job.value.final
    && r in records && Belongs(r, id) && !r.job.value.final
    && forall q :: q in records && Belongs(q, id) ==> r.hash !in q.job.value.previous
  }

  ghost predicate Faulty(records: seq<Record>, id: string) {
    || (exists r :: r in records && RecordFault(records, id, r))
    || (exists i: nat, j: nat :: Twice(records, id, i, j))
    || (exists r, h :: Missing(records, id, r, h))
    || (exists i: nat, j: nat :: BothFinal(records, id, i, j))
    || (exists f, r :: Dropped(records, id, f, r))
  }

  ghost predicate Closed(records: seq<Record>, id: string) {
    exists f :: f in records && Belongs(f, id) && f.job.value.final
  }

  lemma {:induction false} PlacedIff(records: seq<Record>, id: string, r: Record)
    ensures Placed(r, id, Externals(records)) <==> !RecordFault(records, id, r)
  {
    hide Valid, Shaped, Linked;
    assert r.hash in Externals(records) <==> Linked(records, r.hash) by { ExternalIff(records, r.hash); }
    if r.job.Some? { ValidIffShaped(r.job.value); }
  }

  lemma {:induction false} ExternalIff(records: seq<Record>, h: string)
    ensures h in Externals(records) <==> Linked(records, h)
  {
  }

  lemma {:induction false} RepeatsIff(records: seq<Record>, id: string)
    ensures NoRepeats(records, id) <==> !exists i: nat, j: nat :: Twice(records, id, i, j)
  {
    if !NoRepeats(records, id) {
      var i: nat, j: nat :| i < j < |records| && IsMember(records[i], id) && IsMember(records[j], id)
        && !(records[i].hash != records[j].hash && records[i].job.value.stepId != records[j].job.value.stepId);
      assert Twice(records, id, i, j);
    }
  }

  lemma {:induction false} LinksIff(records: seq<Record>, id: string)
    ensures LinksLand(records, id) <==> !exists r, h :: Missing(records, id, r, h)
  {
    if !LinksLand(records, id) {
      var r, h :| r in records && IsMember(r, id) && h in r.job.value.previous && !Here(records, id, h);
      assert Missing(records, id, r, h);
    }
    if r, h :| Missing(records, id, r, h) { assert !Here(records, id, h); }
  }

  /** Fewer than two files are listed as final exactly when no two places hold a final step. */
  lemma {:induction false} FinalsIff(records: seq<Record>, id: string)
    ensures |Finals(records, id)| >= 1 <==> Closed(records, id)
    ensures |Finals(records, id)| <= 1 <==> !exists i: nat, j: nat :: BothFinal(records, id, i, j)
  {
    if records != [] {
      var n := |records| - 1;
      var init, last := records[..n], records[n];
      assert records == init + [last];
      FinalsMore(init, last, id);
      FinalsIff(init, id);
      ClosedMore(init, last, id);
      BothFinalMore(init, last, id);
    }
  }

  lemma {:induction false} ClosedMore(init: seq<Record>, last: Record, id: string)
    ensures Closed(init + [last], id) <==> Closed(init, id) || (Belongs(last, id) && last.job.value.final)
  {
    assert forall q :: q in init + [last] <==> q in init || q == last;
  }

  lemma {:induction false} BothFinalMore(init: seq<Record>, last: Record, id: string)
    ensures (exists i: nat, j: nat :: BothFinal(init + [last], id, i, j)) <==>
            || (exists i: nat, j: nat :: BothFinal(init, id, i, j))
            || (Closed(init, id) && Belongs(last, id) && last.job.value.final)
  {
    var all := init + [last];
    if i: nat, j: nat :| BothFinal(all, id, i, j) {
      if j < |init| { assert BothFinal(init, id, i, j); } else { assert init[i] in init; }
    }
    if i: nat, j: nat :| BothFinal(init, id, i, j) { assert BothFinal(all, id, i, j); }
    if Closed(init, id) && Belongs(last, id) && last.job.value.final {
      var f :| f in init && Belongs(f, id) && f.job.value.final;
      var i: nat :| i < |init| && init[i] == f;
      assert BothFinal(all, id, i, |init|);
    }
  }

  lemma {:induction false} BranchesIff(records: seq<Record>, id: string)
    requires Closed(records, id)
    ensures BranchesJoin(records, id) <==> !exists f, r :: Dropped(records, id, f, r)
  {
    if !BranchesJoin(records, id) {
      var f :| f in records && Belongs(f, id) && f.job.value.final;
      var r :| r in records && IsMember(r, id) && !r.job.value.final && !Followed(records, id, r.hash);
      forall q | q in records && Belongs(q, id) ensures r.hash !in q.job.value.previous {
        assert !Follows(records, id, q.hash, r.hash);
      }
      assert Dropped(records, id, f, r);
    }
  }

  lemma {:induction false} CleanIff(records: seq<Record>)
    ensures Clean(records) <==> !Faulty(records, MainJob(records))
  {
    hide Placed, RecordFault, NoRepeats, Twice, LinksLand, Missing, BothFinal, BranchesJoin, Dropped, Closed, Finals;
    var id := MainJob(records);
    forall r | r in records ensures Placed(r, id, Externals(records)) <==> !RecordFault(records, id, r) {
      PlacedIff(records, id, r);
    }
    RepeatsIff(records, id);
    LinksIff(records, id);
    FinalsIff(records, id);
    if Closed(records, id) { BranchesIff(records, id); } else { NotDropped(records, id); }
  }

  lemma {:induction false} NotDropped(records: seq<Record>, id: string)
    requires !Closed(records, id)
    ensures !exists f, r :: Dropped(records, id, f, r)
  {
  }

  /**
   FAILED exactly when a record or a link has a fault; without one, COMPLETE exactly when a final step closes the
   job and OPEN when none does.
   */
  lemma {:induction false} VerdictIff(records: seq<Record>)
    ensures var id := MainJob(records);
            && (VerdictOf(records) == Failed <==> Faulty(records, id))
            && (VerdictOf(records) == Complete <==> !Faulty(records, id) && Closed(records, id))
            && (VerdictOf(records) == Open <==> !Faulty(records, id) && !Closed(records, id))
  {
    hide Clean, Faulty, Closed, Finals, MainJob;
    CleanIff(records);
    FinalsIff(records, MainJob(records));
    if Clean(records) { OneFinal(records); }
  }

  lemma {:induction false} OneFinal(records: seq<Record>)
    requires Clean(records)
    ensures |Finals(records, MainJob(records))| <= 1
  {
  }

  /** One bad record is enough: a record that fails, has no job, is a stranger or is malformed makes the map FAILED. */
  lemma {:induction false} BadRecordFails(records: seq<Record>, r: Record)
    requires r in records && RecordFault(records, MainJob(records), r)
    ensures VerdictOf(records) == Failed
  {
    hide RecordFault, VerdictOf;
    VerdictIff(records);
  }
}
