/**
 A job is a set of sealed records that name each other by hash. The map check looks at each
 record and each link on its own; here that is shown to mean the final step leads back to
 every record, and that no record can be left out of a finished job.
 */
module JobMap {
  import opened Text
  import opened Job

  /** One file of the folder; `reason` is why the record itself failed, if it did. */
  datatype Record = Record(file: string, hash: string, job: Option<JobLink>, reason: string)

  datatype Problem =
    | RecordFails(file: string)
    | NoJob(file: string)
    | OtherJob(file: string)
    | BadJob(file: string)
    | StepTwice(file: string)
    | RecordTwice(file: string)
    | LinkMissing(step: string, hash: string)
    | TwoFinals
    | BranchDropped(step: string)

  datatype Verdict = Complete | Open | Failed

  datatype Report = Report(jobId: string, problems: seq<Problem>, verdict: Verdict)

  // ----- What the verdict means -----

  function Externals(records: seq<Record>): set<string> {
    set r, h | r in records && r.job.Some? && h in r.job.value.external :: h
  }

  /** mainJobID: the job of the first record that is no other record's external target. */
  function FirstJob(records: seq<Record>, external: set<string>): string {
    if records == [] then ""
    else if records[0].job.Some? && records[0].hash !in external then records[0].job.value.jobId
    else FirstJob(records[1..], external)
  }

  function MainJob(records: seq<Record>): string { FirstJob(records, Externals(records)) }

  predicate IsMember(r: Record, id: string) { r.job.Some? && r.job.value.jobId == id }

  function Finals(records: seq<Record>, id: string): seq<string> {
    if records == [] then []
    else
      var r := records[|records| - 1];
      Finals(records[..|records| - 1], id) + (if IsMember(r, id) && r.job.value.final then [r.file] else [])
  }

  /** The record stands on its own: it verifies, and belongs to the job or is an external target. */
  ghost predicate Placed(r: Record, id: string, external: set<string>) {
    r.reason == "" && r.job.Some? && if r.job.value.jobId == id then Valid(r.job.value) else r.hash in external
  }

  ghost predicate NoRepeats(records: seq<Record>, id: string) {
    forall i, j :: 0 <= i < j < |records| && IsMember(records[i], id) && IsMember(records[j], id) ==>
      records[i].hash != records[j].hash && records[i].job.value.stepId != records[j].job.value.stepId
  }

  ghost predicate Here(records: seq<Record>, id: string, h: string) {
    exists r :: r in records && IsMember(r, id) && r.hash == h
  }

  /** Some record of the job names b among the records it follows, and its own hash is a. */
  ghost predicate Follows(records: seq<Record>, id: string, a: string, b: string) {
    exists r :: r in records && IsMember(r, id) && r.hash == a && b in r.job.value.previous
  }

  ghost predicate Followed(records: seq<Record>, id: string, h: string) {
    exists a :: Follows(records, id, a, h)
  }

  ghost predicate LinksLand(records: seq<Record>, id: string) {
    forall r, h :: r in records && IsMember(r, id) && h in r.job.value.previous ==> Here(records, id, h)
  }

  ghost predicate BranchesJoin(records: seq<Record>, id: string) {
    forall r :: r in records && IsMember(r, id) && !r.job.value.final ==> Followed(records, id, r.hash)
  }

  /** No problem is reported. */
  ghost predicate Clean(records: seq<Record>) {
    var id := MainJob(records);
    && (forall r :: r in records ==> Placed(r, id, Externals(records)))
    && NoRepeats(records, id)
    && LinksLand(records, id)
    && |Finals(records, id)| <= 1
    && (|Finals(records, id)| == 1 ==> BranchesJoin(records, id))
  }

  ghost function VerdictOf(records: seq<Record>): Verdict {
    if !Clean(records) then Failed
    else if |Finals(records, MainJob(records))| == 1 then Complete
    else Open
  }

  // ----- The check -----

  /** The index holds exactly the job's records, the last one under a repeated hash or step. */
  ghost predicate IndexOf(byHash: map<string, Record>, byStep: map<string, string>, final: seq<string>,
                          records: seq<Record>, id: string)
  {
    && (forall h :: h in byHash <==> Here(records, id, h))
    && (forall h :: h in byHash ==> byHash[h] in records && IsMember(byHash[h], id) && byHash[h].hash == h)
    && (forall s :: s in byStep <==> StepTaken(records, id, s))
    && final == Finals(records, id)
  }

  ghost predicate StepTaken(records: seq<Record>, id: string, s: string) {
    exists r :: r in records && IsMember(r, id) && r.job.value.stepId == s
  }

  /** What one more record adds to the members' hashes and steps. */
  lemma {:induction false} MembersMore(before: seq<Record>, r: Record, id: string)
    ensures forall h :: Here(before + [r], id, h) <==> Here(before, id, h) || (IsMember(r, id) && r.hash == h)
    ensures forall s :: StepTaken(before + [r], id, s) <==>
        StepTaken(before, id, s) || (IsMember(r, id) && r.job.value.stepId == s)
    ensures forall q :: q in before + [r] <==> q in before || q == r
    ensures Finals(before + [r], id) == Finals(before, id) +
            (if IsMember(r, id) && r.job.value.final then [r.file] else [])
  {
    var all := before + [r];
    assert all[..|before|] == before;
    assert forall q :: q in all <==> q in before || q == r;
    forall h ensures Here(all, id, h) <==> Here(before, id, h) || (IsMember(r, id) && r.hash == h) {
      if q :| q in before && IsMember(q, id) && q.hash == h { assert q in all; }
    }
    forall s ensures StepTaken(all, id, s) <==>
        StepTaken(before, id, s) || (IsMember(r, id) && r.job.value.stepId == s) {
      if q :| q in before && IsMember(q, id) && q.job.value.stepId == s { assert q in all; }
    }
  }

  lemma {:induction false} NewIsAbsent(byHash: map<string, Record>, byStep: map<string, string>, final: seq<string>,
                                       before: seq<Record>, r: Record, id: string)
    requires IndexOf(byHash, byStep, final, before, id)
    ensures IsNew(before, r, id) <==> (IsMember(r, id) ==> r.hash !in byHash && r.job.value.stepId !in byStep)
  {
  }

  lemma {:induction false} IndexMore(byHash: map<string, Record>, byStep: map<string, string>, final: seq<string>,
                                     before: seq<Record>, r: Record, id: string)
    requires IndexOf(byHash, byStep, final, before, id)
    ensures !IsMember(r, id) ==> IndexOf(byHash, byStep, final, before + [r], id)
    ensures IsMember(r, id) ==>
              IndexOf(byHash[r.hash := r], byStep[r.job.value.stepId := r.file],
                      if r.job.value.final then final + [r.file] else final, before + [r], id)
    ensures IsNew(before, r, id) <==> (IsMember(r, id) ==> r.hash !in byHash && r.job.value.stepId !in byStep)
  {
    hide Here, StepTaken, Finals, IsNew;
    MembersMore(before, r, id);
    NewIsAbsent(byHash, byStep, final, before, r, id);
  }

  class JobIndex {
    var byHash: map<string, Record>
    var byStep: map<string, string>
    var followed: set<string>
    var final: seq<string>
    var problems: seq<Problem>

    constructor ()
      ensures byHash == map[] && byStep == map[] && followed == {} && final == [] && problems == []
    {
      byHash, byStep, followed, final, problems := map[], map[], {}, [], [];
    }

    method Add(p: Problem)
      modifies this`problems
      ensures problems == old(problems) + [p]
    {
      problems := problems + [p];
    }

    ghost predicate Holds(records: seq<Record>, id: string)
      reads this
    {
      IndexOf(byHash, byStep, final, records, id)
    }

    /** The first checks of indexJob on one record. */
    method CheckRecord(r: Record, id: string, external: set<string>)
      modifies this`problems
      ensures old(problems) <= problems
      ensures problems == old(problems) <==> Placed(r, id, external)
    {
      if r.reason != "" {
        Add(RecordFails(r.file));
      } else if r.job.None? {
        Add(NoJob(r.file));
      } else if r.job.value.jobId != id && r.hash !in external {
        Add(OtherJob(r.file));
      }
      if IsMember(r, id) {
        var ok := Validate(r.job.value);
        if !ok {
          Add(BadJob(r.file));
        }
      }
    }

    /** The loop body of indexJob: one record's own place in the job. */
    method IndexOne(r: Record, id: string, external: set<string>, ghost before: seq<Record>)
      requires Holds(before, id)
      modifies this
      ensures Holds(before + [r], id) && followed == old(followed) && old(problems) <= problems
      ensures problems == old(problems) <==> Placed(r, id, external) && IsNew(before, r, id)
    {
      hide IndexOf, IsNew, Placed;
      CheckRecord(r, id, external);
      IndexMore(byHash, byStep, final, before, r, id);
      if IsMember(r, id) {
        if r.job.value.stepId in byStep {
          Add(StepTwice(r.file));
        }
        if r.hash in byHash {
          Add(RecordTwice(r.file));
        }
        byStep := byStep[r.job.value.stepId := r.file];
        byHash := byHash[r.hash := r];
        if r.job.value.final {
          final := final + [r.file];
        }
      }
    }

    /** indexJob */
    method IndexJob(records: seq<Record>, id: string, external: set<string>)
      requires byHash == map[] && byStep == map[] && final == [] && problems == []
      modifies this
      ensures Holds(records, id) && followed == old(followed)
      ensures problems == [] <==> (forall r :: r in records ==> Placed(r, id, external)) && NoRepeats(records, id)
    {
      for n := 0 to |records|
        invariant Holds(records[..n], id) && followed == old(followed)
        invariant problems == [] <==>
            (forall r :: r in records[..n] ==> Placed(r, id, external)) && NoRepeats(records[..n], id)
      {
        IndexOne(records[n], id, external, records[..n]);
        assert records[..n + 1] == records[..n] + [records[n]];
        NoRepeatsMore(records[..n], records[n], id);
      }
      assert records[..|records|] == records;
    }

    /** The first loop over the index: marks what is followed and reports links that land nowhere. */
    method FollowLinks()
      requires followed == {} && forall h :: h in byHash ==> byHash[h].job.Some?
      modifies this`followed, this`problems
      ensures old(problems) <= problems
      ensures problems == old(problems) <==> forall h, x :: h in byHash && x in byHash[h].job.value.previous ==>
          x in byHash
      ensures forall x :: x in followed <==> exists h :: h in byHash && x in byHash[h].job.value.previous
    {
      var todo := byHash.Keys;
      followed := {};
      while todo != {}
        invariant todo <= byHash.Keys && old(problems) <= problems
        invariant problems == old(problems) <==>
            forall h, x :: h in byHash && h !in todo && x in byHash[h].job.value.previous ==> x in byHash
        invariant forall x :: x in followed <==>
            exists h :: h in byHash && h !in todo && x in byHash[h].job.value.previous
      {
        var h :| h in todo;
        var links := byHash[h].job.value.previous;
        ghost var marked, reported := followed, problems;
        for k := 0 to |links|
          invariant old(problems) <= reported <= problems
          invariant problems == reported <==> forall x :: x in links[..k] ==> x in byHash
          invariant forall x :: x in followed <==> x in marked || x in links[..k]
        {
          assert links[..k + 1] == links[..k] + [links[k]];
          assert links[k] in links[..k + 1];
          followed := followed + {links[k]};
          if links[k] !in byHash {
            Add(LinkMissing(byHash[h].job.value.stepId, links[k]));
          }
        }
        assert links[..|links|] == links;
        todo := todo - {h};
      }
    }

    /** The second loop over the index: a branch that nothing follows was dropped. */
    method FindDropped()
      requires forall h :: h in byHash ==> byHash[h].job.Some?
      modifies this`problems
      ensures old(problems) <= problems
      ensures problems == old(problems) <==> forall h :: h in byHash && !byHash[h].job.value.final ==> h in followed
    {
      var todo := byHash.Keys;
      while todo != {}
        invariant todo <= byHash.Keys && old(problems) <= problems
        invariant problems == old(problems) <==>
            forall h :: h in byHash && h !in todo && !byHash[h].job.value.final ==> h in followed
      {
        var h :| h in todo;
        if !byHash[h].job.value.final && h !in followed {
          Add(BranchDropped(byHash[h].job.value.stepId));
        }
        todo := todo - {h};
      }
    }
  }

  method ExternalTargets(records: seq<Record>) returns (external: set<string>)
    ensures external == Externals(records)
  {
    external := {};
    for n := 0 to |records|
      invariant external == Externals(records[..n])
    {
      assert records[..n + 1] == records[..n] + [records[n]];
      if records[n].job.Some? {
        var links := records[n].job.value.external;
        for k := 0 to |links|
          invariant external == Externals(records[..n]) + set h | h in links[..k]
        {
          assert links[..k + 1] == links[..k] + [links[k]];
          external := external + {links[k]};
        }
        assert links[..|links|] == links;
      }
    }
    assert records[..|records|] == records;
  }

  /** mainJobID */
  method MainJobID(records: seq<Record>) returns (id: string)
    ensures id == MainJob(records)
  {
    var external := ExternalTargets(records);
    for n := 0 to |records|
      invariant FirstJob(records, external) == FirstJob(records[n..], external)
    {
      if records[n].job.Some? && records[n].hash !in external {
        return records[n].job.value.jobId;
      }
    }
    return "";
  }

  /** With no repeats the index is the job: every record under its own hash. */
  lemma {:induction false} IndexIsJob(byHash: map<string, Record>, byStep: map<string, string>, final: seq<string>,
                                      records: seq<Record>, id: string)
    requires IndexOf(byHash, byStep, final, records, id) && NoRepeats(records, id)
    ensures forall r :: r in records && IsMember(r, id) ==> r.hash in byHash && byHash[r.hash] == r
    ensures (forall h, x :: h in byHash && x in byHash[h].job.value.previous ==> x in byHash) <==>
        LinksLand(records, id)
    ensures forall x :: Followed(records, id, x) <==> exists h :: h in byHash && x in byHash[h].job.value.previous
  {
    forall r | r in records && IsMember(r, id) ensures r.hash in byHash && byHash[r.hash] == r {
      assert Here(records, id, r.hash);
      var q := byHash[r.hash];
      var i :| 0 <= i < |records| && records[i] == r;
      var j :| 0 <= j < |records| && records[j] == q;
      assert i == j;
    }
    forall x | Followed(records, id, x) ensures exists h :: h in byHash && x in byHash[h].job.value.previous {
      var a :| Follows(records, id, a, x);
      assert a in byHash && x in byHash[a].job.value.previous;
    }
    forall x, h | h in byHash && x in byHash[h].job.value.previous ensures Followed(records, id, x) {
      assert Follows(records, id, h, x);
    }
  }

  lemma {:induction false} BranchesFollowed(byHash: map<string, Record>, byStep: map<string, string>,
      final: seq<string>, records: seq<Record>, id: string, followed: set<string>)
    requires IndexOf(byHash, byStep, final, records, id) && NoRepeats(records, id)
    requires forall x :: x in followed <==> Followed(records, id, x)
    ensures (forall h :: h in byHash && !byHash[h].job.value.final ==> h in followed) <==> BranchesJoin(records, id)
  {
    IndexIsJob(byHash, byStep, final, records, id);
  }

  /** checkJobMap. The order of the reported problems is not modelled. */
  method CheckJobMap(records: seq<Record>) returns (report: Report)
    ensures report.jobId == MainJob(records) && report.verdict == VerdictOf(records)
    ensures report.problems == [] <==> Clean(records)
  {
    hide LinksLand, NoRepeats, BranchesJoin, Placed, Followed, Follows, Here, StepTaken, Finals, Externals, FirstJob,
        Valid;
    var id := MainJobID(records);
    var external := ExternalTargets(records);
    var idx := new JobIndex();
    idx.IndexJob(records, id, external);
    ghost var sound := idx.problems == [];
    idx.FollowLinks();
    if |idx.final| > 1 {
      idx.Add(TwoFinals);
    }
    if |idx.final| == 1 {
      idx.FindDropped();
    }
    if sound {
      IndexIsJob(idx.byHash, idx.byStep, idx.final, records, id);
      BranchesFollowed(idx.byHash, idx.byStep, idx.final, records, id, idx.followed);
    }
    var verdict := if |idx.problems| > 0 then Failed else if |idx.final| == 1 then Complete else Open;
    return Report(id, idx.problems, verdict);
  }

  /** Neither the hash nor the step of r is taken. */
  ghost predicate IsNew(before: seq<Record>, r: Record, id: string) {
    IsMember(r, id) ==> forall q :: q in before && IsMember(q, id) ==>
        q.hash != r.hash && q.job.value.stepId != r.job.value.stepId
  }

  lemma {:induction false} NoRepeatsMore(before: seq<Record>, r: Record, id: string)
    ensures NoRepeats(before + [r], id) <==> NoRepeats(before, id) && IsNew(before, r, id)
  {
    var all := before + [r];
    if NoRepeats(all, id) {
      forall i, j | 0 <= i < j < |before| && IsMember(before[i], id) && IsMember(before[j], id)
        ensures before[i].hash != before[j].hash && before[i].job.value.stepId != before[j].job.value.stepId
      {
        assert all[i] == before[i] && all[j] == before[j];
      }
      forall q | q in before && IsMember(q, id) && IsMember(r, id)
        ensures q.hash != r.hash && q.job.value.stepId != r.job.value.stepId
      {
        var i :| 0 <= i < |before| && before[i] == q;
        assert all[i] == q && all[|before|] == r;
      }
    }
  }
}
