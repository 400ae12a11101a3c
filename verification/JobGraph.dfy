/** What a COMPLETE job map implies about the graph of its records. */
module JobGraph {
  import opened Text
  import opened Job
  import opened JobMap

  /** A walk along previous-links: each hash is that of a record naming the next among those it follows. */
  ghost predicate Trail(records: seq<Record>, id: string, p: seq<string>) {
    |p| >= 1 && forall k :: 0 <= k < |p| - 1 ==> Follows(records, id, p[k], p[k + 1])
  }

  ghost predicate LeadsTo(records: seq<Record>, id: string, a: string, b: string) {
    exists p :: Trail(records, id, p) && p[0] == a && p[|p| - 1] == b
  }

  ghost predicate FinalStep(records: seq<Record>, id: string, f: Record) {
    f in records && IsMember(f, id) && f.job.value.final
  }

  /** Every record of the job is reached from its final step. */
  ghost predicate AllReached(records: seq<Record>, f: Record) {
    var id := MainJob(records);
    forall r :: r in records && IsMember(r, id) ==> LeadsTo(records, id, f.hash, r.hash)
  }

  /** Previous-links strictly decrease the rank, so there is no cycle. */
  ghost predicate Ranked(records: seq<Record>, id: string, rank: string -> nat) {
    forall a, b :: Follows(records, id, a, b) ==> rank(b) < rank(a)
  }

  /** The same among the records the final step does not reach. */
  ghost predicate RankedOutside(records: seq<Record>, id: string, f: Record, rank: string -> nat) {
    forall a, b ::
      Follows(records, id, a, b) && !LeadsTo(records, id, f.hash, a) && !LeadsTo(records, id, f.hash, b) ==>
        rank(b) < rank(a)
  }

  lemma {:induction false} TrailMore(records: seq<Record>, id: string, a: string, b: string, c: string)
    requires LeadsTo(records, id, a, b) && Follows(records, id, b, c)
    ensures LeadsTo(records, id, a, c)
  {
    var p :| Trail(records, id, p) && p[0] == a && p[|p| - 1] == b;
    var q := p + [c];
    assert Trail(records, id, q) && q[0] == a && q[|q| - 1] == c;
  }

  lemma {:induction false} LeadsToSelf(records: seq<Record>, id: string, a: string)
    ensures LeadsTo(records, id, a, a)
  {
    assert Trail(records, id, [a]);
  }

  /** The records listed as final are the final steps, in order. */
  lemma {:induction false} FinalsMembers(records: seq<Record>, id: string)
    ensures |Finals(records, id)| >= 1 <==> exists f :: FinalStep(records, id, f)
    ensures |Finals(records, id)| == 1 && NoRepeats(records, id) ==>
              forall f, g :: FinalStep(records, id, f) && FinalStep(records, id, g) ==> f == g
    decreases |records|, 1
  {
    if records != [] {
      var n := |records| - 1;
      var init, last := records[..n], records[n];
      assert records == init + [last];
      FinalsMembers(init, id);
      assert NoRepeats(records, id) ==> NoRepeats(init, id);
      assert forall r :: r in records <==> r in init || r == last;
      assert forall f :: FinalStep(init, id, f) ==> FinalStep(records, id, f);
      assert forall f :: FinalStep(records, id, f) ==> FinalStep(init, id, f) || f == last;
      assert Finals(records, id) == Finals(init, id) + (if FinalStep(records, id, last) then [last.file] else []);
      if |Finals(records, id)| == 1 && NoRepeats(records, id) {
        forall f, g | FinalStep(records, id, f) && FinalStep(records, id, g) ensures f == g {
          if f == last || g == last { NoOtherFinal(records, id, if f == last then g else f, last); }
        }
      }
    }
  }

  lemma {:induction false} NoOtherFinal(records: seq<Record>, id: string, f: Record, last: Record)
    requires records != [] && last == records[|records| - 1] && |Finals(records, id)| == 1
    requires FinalStep(records, id, f) && FinalStep(records, id, last)
    ensures f == last
    decreases |records|, 0
  {
    var init := records[..|records| - 1];
    assert records == init + [last];
    FinalsMembers(init, id);
    assert f == last || FinalStep(init, id, f);
  }

  /** A COMPLETE map has one final step. */
  lemma {:induction false} TheFinalStep(records: seq<Record>) returns (f: Record)
    requires VerdictOf(records) == Complete
    ensures FinalStep(records, MainJob(records), f)
    ensures forall g :: FinalStep(records, MainJob(records), g) ==> g == f
  {
    FinalsMembers(records, MainJob(records));
    f :| FinalStep(records, MainJob(records), f);
  }

  lemma {:induction false} RankBound(records: seq<Record>, rank: string -> nat) returns (bound: nat)
    ensures forall r :: r in records ==> rank(r.hash) <= bound
  {
    if records == [] {
      bound := 0;
    } else {
      bound := RankBound(records[1..], rank);
      bound := if bound < rank(records[0].hash) then rank(records[0].hash) else bound;
    }
  }

  /** Following the followers of a record upwards ends at the final step. */
  lemma {:induction false} ReachedByRank(records: seq<Record>, f: Record, rank: string -> nat, bound: nat, r: Record)
    requires VerdictOf(records) == Complete && FinalStep(records, MainJob(records), f)
    requires RankedOutside(records, MainJob(records), f, rank)
    requires forall q :: q in records ==> rank(q.hash) <= bound
    requires r in records && IsMember(r, MainJob(records))
    ensures LeadsTo(records, MainJob(records), f.hash, r.hash)
    decreases bound - rank(r.hash)
  {
    var id := MainJob(records);
    if r.job.value.final {
      var g := TheFinalStep(records);
      assert FinalStep(records, id, r) && r == g == f;
      LeadsToSelf(records, id, f.hash);
    } else {
      assert Followed(records, id, r.hash);
      var a :| Follows(records, id, a, r.hash);
      var s :| s in records && IsMember(s, id) && s.hash == a && r.hash in s.job.value.previous;
      if LeadsTo(records, id, f.hash, a) {
        TrailMore(records, id, f.hash, a, r.hash);
      } else if !LeadsTo(records, id, f.hash, r.hash) {
        assert rank(r.hash) < rank(a);
        ReachedByRank(records, f, rank, bound, s);
      }
    }
  }

  /** A COMPLETE map without cycles leads back from its final step to every record. */
  lemma {:induction false} CompleteReachesAll(records: seq<Record>, f: Record, rank: string -> nat)
    requires VerdictOf(records) == Complete && FinalStep(records, MainJob(records), f)
    requires Ranked(records, MainJob(records), rank)
    ensures AllReached(records, f)
  {
    var bound := RankBound(records, rank);
    forall r | r in records && IsMember(r, MainJob(records))
        ensures LeadsTo(records, MainJob(records), f.hash, r.hash) {
      ReachedByRank(records, f, rank, bound, r);
    }
  }

  /** Exactly: every record is reached if and only if the records left out by the final step hold no cycle. */
  lemma {:induction false} CompleteReachesIff(records: seq<Record>, f: Record)
    requires VerdictOf(records) == Complete && FinalStep(records, MainJob(records), f)
    ensures AllReached(records, f) <==> exists rank: string -> nat :: RankedOutside(records, MainJob(records), f, rank)
  {
    var id := MainJob(records);
    if AllReached(records, f) {
      var zero: string -> nat := s => 0;
      forall a, b | Follows(records, id, a, b) ensures LeadsTo(records, id, f.hash, a) {
        var r :| r in records && IsMember(r, id) && r.hash == a && b in r.job.value.previous;
      }
      assert RankedOutside(records, id, f, zero);
    }
    if rank: string -> nat :| RankedOutside(records, id, f, rank) {
      var bound := RankBound(records, rank);
      forall r | r in records && IsMember(r, id) ensures LeadsTo(records, id, f.hash, r.hash) {
        ReachedByRank(records, f, rank, bound, r);
      }
    }
  }

  // ----- A cycle the local checks do not see -----

  function Step(hash: string, step: string, previous: seq<string>, final: bool): Record {
    Record(step, hash, Some(JobLink("job", step, previous, [], final)), "")
  }

  /** Two steps that follow each other beside a final step that follows nothing. */
  function Cycle(x: string, y: string, z: string): seq<Record> {
    [Step(x, "a", [y], false), Step(y, "b", [x], false), Step(z, "f", [], true)]
  }

  lemma {:induction false} TrailStart(records: seq<Record>, id: string, p: seq<string>)
    requires Trail(records, id, p) && |p| > 1
    ensures Follows(records, id, p[0], p[1])
  {
  }

  lemma {:induction false} CycleParts(x: string, y: string, z: string) returns (a: Record, b: Record, f: Record)
    requires ValidHash(x) && ValidHash(y) && ValidHash(z)
    ensures Cycle(x, y, z) == [a, b, f] && a == Step(x, "a", [y], false) && b == Step(y, "b", [x], false)
        && f == Step(z, "f", [], true)
    ensures Valid(a.job.value) && Valid(b.job.value) && Valid(f.job.value)
  {
    hide ValidHash;
    assert ValidName("job") && ValidName("a") && ValidName("b") && ValidName("f");
    a, b, f := Cycle(x, y, z)[0], Cycle(x, y, z)[1], Cycle(x, y, z)[2];
  }

  lemma {:induction false} CycleFinals(a: Record, b: Record, f: Record, id: string)
    requires IsMember(a, id) && IsMember(b, id) && IsMember(f, id)
    requires !a.job.value.final && !b.job.value.final && f.job.value.final
    ensures |Finals([a, b, f], id)| == 1
  {
    assert [a, b, f][..2] == [a, b] && [a, b][..1] == [a] && [a][..0] == [];
    assert Finals([a], id) == [] && Finals([a, b], id) == [];
  }

  lemma {:induction false} CycleMain(rs: seq<Record>, a: Record, b: Record, f: Record)
    requires rs == [a, b, f] && a == Step(a.hash, "a", [b.hash], false) && b == Step(b.hash, "b", [a.hash], false)
        && f == Step(f.hash, "f", [], true)
    ensures MainJob(rs) == "job" && Externals(rs) == {}
  {
    assert forall r :: r in rs <==> r == a || r == b || r == f;
    assert Externals(rs) == {};
  }

  lemma {:induction false} CycleClean(rs: seq<Record>, a: Record, b: Record, f: Record)
    requires rs == [a, b, f] && a.hash != b.hash && b.hash != f.hash && a.hash != f.hash
    requires a == Step(a.hash, "a", [b.hash], false) && b == Step(b.hash, "b", [a.hash], false)
        && f == Step(f.hash, "f", [], true)
    ensures NoRepeats(rs, "job") && LinksLand(rs, "job") && BranchesJoin(rs, "job")
  {
    hide NoRepeats, LinksLand, BranchesJoin, Here, Follows;
    CycleNoRepeats(rs, a, b, f);
    CycleLinks(rs, a, b);
    CycleLands(rs, a, b, f);
    CycleJoins(rs, a, b, f);
  }

  lemma {:induction false} CycleLands(rs: seq<Record>, a: Record, b: Record, f: Record)
    requires rs == [a, b, f] && Here(rs, "job", a.hash) && Here(rs, "job", b.hash)
    requires a == Step(a.hash, "a", [b.hash], false) && b == Step(b.hash, "b", [a.hash], false)
        && f == Step(f.hash, "f", [], true)
    ensures LinksLand(rs, "job")
  {
    hide Here;
  }

  lemma {:induction false} CycleJoins(rs: seq<Record>, a: Record, b: Record, f: Record)
    requires rs == [a, b, f] && f.job.Some? && f.job.value.final
    requires Follows(rs, "job", a.hash, b.hash) && Follows(rs, "job", b.hash, a.hash)
    ensures BranchesJoin(rs, "job")
  {
    hide Follows;
  }

  lemma {:induction false} CycleNoRepeats(rs: seq<Record>, a: Record, b: Record, f: Record)
    requires rs == [a, b, f] && a.hash != b.hash && b.hash != f.hash && a.hash != f.hash
    requires a == Step(a.hash, "a", [b.hash], false) && b == Step(b.hash, "b", [a.hash], false)
        && f == Step(f.hash, "f", [], true)
    ensures NoRepeats(rs, "job")
  {
  }

  lemma {:induction false} CycleLinks(rs: seq<Record>, a: Record, b: Record)
    requires |rs| == 3 && rs[0] == a && rs[1] == b && a == Step(a.hash, "a", [b.hash], false)
        && b == Step(b.hash, "b", [a.hash], false)
    ensures Here(rs, "job", a.hash) && Here(rs, "job", b.hash)
    ensures Follows(rs, "job", a.hash, b.hash) && Follows(rs, "job", b.hash, a.hash)
  {
    assert a in rs && b in rs;
  }

  lemma {:induction false} CycleVerdict(x: string, y: string, z: string)
    requires ValidHash(x) && ValidHash(y) && ValidHash(z) && x != y && y != z && x != z
    ensures MainJob(Cycle(x, y, z)) == "job" && VerdictOf(Cycle(x, y, z)) == Complete
  {
    hide ValidHash, Finals, Valid, MainJob, Externals, NoRepeats, LinksLand, BranchesJoin;
    var rs := Cycle(x, y, z);
    var a, b, f := CycleParts(x, y, z);
    CycleMain(rs, a, b, f);
    CycleClean(rs, a, b, f);
    CycleFinals(a, b, f, "job");
    assert forall r :: r in rs <==> r == a || r == b || r == f;
  }

  /**
   Whatever three hashes three records have, as long as those do not depend on the job blocks, there are blocks that
   make the map COMPLETE while its final step leads to neither of the other two.
   */
  lemma {:induction false} CycleNotReached(x: string, y: string, z: string)
    requires ValidHash(x) && ValidHash(y) && ValidHash(z) && x != y && y != z && x != z
    ensures var rs := Cycle(x, y, z);
            && VerdictOf(rs) == Complete && FinalStep(rs, MainJob(rs), rs[2]) && !AllReached(rs, rs[2])
            && rs[0].hash == x && rs[1].hash == y && rs[2].hash == z
  {
    hide ValidHash, VerdictOf, MainJob;
    CycleVerdict(x, y, z);
    var rs := Cycle(x, y, z);
    var a, b, f := CycleParts(x, y, z);
    assert a in rs && f in rs;
    assert forall h :: !Follows(rs, "job", f.hash, h);
    forall p | Trail(rs, "job", p) && p[0] == f.hash ensures |p| == 1 {
      if |p| > 1 { TrailStart(rs, "job", p); }
    }
    assert !LeadsTo(rs, "job", f.hash, a.hash);
  }

  // ----- Leaving records out -----

  /** Some of the records, and not all of them; repeats are allowed and only add problems. */
  ghost predicate ProperPart(part: seq<Record>, records: seq<Record>) {
    (forall r :: r in part ==> r in records) && exists r :: r in records && r !in part
  }

  /** One job on its own: no record links to another account. */
  ghost predicate SingleJob(records: seq<Record>) {
    forall r :: r in records && r.job.Some? ==> r.job.value.external == []
  }

  lemma {:induction false} SingleJobMembers(records: seq<Record>)
    requires SingleJob(records) && Clean(records)
    ensures Externals(records) == {} && forall r :: r in records ==> IsMember(r, MainJob(records))
  {
    assert Externals(records) == {};
  }

  lemma {:induction false} PartMainJob(part: seq<Record>, records: seq<Record>)
    requires SingleJob(records) && Clean(records) && part != [] && forall r :: r in part ==> r in records
    ensures Externals(part) == {} && MainJob(part) == MainJob(records)
  {
    SingleJobMembers(records);
    assert Externals(part) == {};
    assert part[0] in records;
  }

  lemma {:induction false} SameHashSameRecord(records: seq<Record>, id: string, q: Record, r: Record)
    requires NoRepeats(records, id) && q in records && r in records && IsMember(q, id) && IsMember(r, id)
        && q.hash == r.hash
    ensures q == r
  {
    var i :| 0 <= i < |records| && records[i] == q;
    var j :| 0 <= j < |records| && records[j] == r;
    assert i == j;
  }

  /** A part that keeps the final step and whose links land keeps everything the final step leads to. */
  lemma {:induction false} PartKeepsTrail(part: seq<Record>, records: seq<Record>, f: Record, p: seq<string>, k: nat)
    requires SingleJob(records) && Clean(records) && (forall r :: r in part ==> r in records)
    requires f in part && LinksLand(part, MainJob(records))
    requires Trail(records, MainJob(records), p) && p[0] == f.hash && k < |p|
    ensures exists r :: r in part && r.hash == p[k]
  {
    var id := MainJob(records);
    SingleJobMembers(records);
    if k > 0 {
      PartKeepsTrail(part, records, f, p, k - 1);
      var r :| r in part && r.hash == p[k - 1];
      assert Follows(records, id, p[k - 1], p[k - 1 + 1]);
      var s :| s in records && IsMember(s, id) && s.hash == p[k - 1] && p[k] in s.job.value.previous;
      SameHashSameRecord(records, id, r, s);
      assert Here(part, id, p[k]);
    }
  }

  /** Of a finished job in which every record is reached, a part that keeps the final step has a broken link. */
  lemma {:induction false} DroppedRecordFails(part: seq<Record>, records: seq<Record>, f: Record)
    requires VerdictOf(records) == Complete && SingleJob(records) && FinalStep(records, MainJob(records), f)
    requires AllReached(records, f) && ProperPart(part, records) && f in part
    ensures VerdictOf(part) == Failed && !LinksLand(part, MainJob(part))
  {
    PartMainJob(part, records);
    if LinksLand(part, MainJob(records)) { PartIsAll(part, records, f); }
  }

  lemma {:induction false} PartIsAll(part: seq<Record>, records: seq<Record>, f: Record)
    requires SingleJob(records) && Clean(records) && AllReached(records, f)
    requires (forall r :: r in part ==> r in records) && f in part && LinksLand(part, MainJob(records))
    ensures forall r :: r in records ==> r in part
  {
    var id := MainJob(records);
    SingleJobMembers(records);
    forall r | r in records ensures r in part {
      var p :| Trail(records, id, p) && p[0] == f.hash && p[|p| - 1] == r.hash;
      PartKeepsTrail(part, records, f, p, |p| - 1);
      var q :| q in part && q.hash == r.hash;
      SameHashSameRecord(records, id, q, r);
    }
  }

  /** A part without the final step is not COMPLETE. */
  lemma {:induction false} PartWithoutFinal(part: seq<Record>, records: seq<Record>, f: Record)
    requires VerdictOf(records) == Complete && SingleJob(records) && FinalStep(records, MainJob(records), f)
    requires (forall r :: r in part ==> r in records) && f !in part
    ensures VerdictOf(part) != Complete
  {
    if VerdictOf(part) == Complete {
      var g := TheFinalStep(part);
      PartMainJob(part, records);
      var h := TheFinalStep(records);
      assert FinalStep(records, MainJob(records), g);
    }
  }

  // ----- The records a final step reaches form a finished job of their own -----

  ghost function Reached(records: seq<Record>, all: seq<Record>, id: string, f: Record): (kept: seq<Record>)
    ensures forall r :: r in kept <==> r in records && LeadsTo(all, id, f.hash, r.hash)
  {
    if records == [] then []
    else
      var r := records[|records| - 1];
      Reached(records[..|records| - 1], all, id, f) + (if LeadsTo(all, id, f.hash, r.hash) then [r] else [])
  }

  lemma {:induction false} ReachedNoRepeats(records: seq<Record>, all: seq<Record>, id: string, f: Record)
    requires NoRepeats(records, id)
    ensures NoRepeats(Reached(records, all, id, f), id)
  {
    if records != [] {
      var init, last := records[..|records| - 1], records[|records| - 1];
      assert records == init + [last];
      NoRepeatsMore(init, last, id);
      ReachedNoRepeats(init, all, id, f);
      NoRepeatsMore(Reached(init, all, id, f), last, id);
    }
  }

  lemma {:induction false} FinalsMore(init: seq<Record>, last: Record, id: string)
    ensures Finals(init + [last], id) == Finals(init, id) +
            (if IsMember(last, id) && last.job.value.final then [last.file] else [])
  {
    assert (init + [last])[..|init|] == init;
  }

  lemma {:induction false} ReachedFinals(records: seq<Record>, all: seq<Record>, id: string, f: Record)
    requires forall g :: g in records && IsMember(g, id) && g.job.value.final ==> LeadsTo(all, id, f.hash, g.hash)
    ensures Finals(Reached(records, all, id, f), id) == Finals(records, id)
  {
    hide LeadsTo, Finals;
    if records != [] {
      var init, last := records[..|records| - 1], records[|records| - 1];
      assert records == init + [last];
      ReachedFinals(init, all, id, f);
      FinalsMore(init, last, id);
      FinalsMore(Reached(init, all, id, f), last, id);
      if !LeadsTo(all, id, f.hash, last.hash) {
        assert !(IsMember(last, id) && last.job.value.final);
        assert Reached(records, all, id, f) == Reached(init, all, id, f);
      }
    } else {
      assert Reached(records, all, id, f) == records;
    }
  }

  lemma {:induction false} ReachedFollowed(records: seq<Record>, f: Record, r: Record)
    requires VerdictOf(records) == Complete && SingleJob(records) && FinalStep(records, MainJob(records), f)
    requires r in records && r != f && LeadsTo(records, MainJob(records), f.hash, r.hash)
    ensures Followed(Reached(records, records, MainJob(records), f), MainJob(records), r.hash)
  {
    hide Reached, Followed, Finals, Externals, MainJob;
    var id := MainJob(records);
    SingleJobMembers(records);
    var p :| Trail(records, id, p) && p[0] == f.hash && p[|p| - 1] == r.hash;
    assert |p| > 1 by {
      if p[0] == r.hash { SameHashSameRecord(records, id, f, r); }
    }
    LastFollowed(records, id, f, p);
  }

  /** The end of a trail from the final step is followed by a record the final step reaches. */
  lemma {:induction false} LastFollowed(records: seq<Record>, id: string, f: Record, p: seq<string>)
    requires Trail(records, id, p) && |p| > 1 && p[0] == f.hash
    ensures Followed(Reached(records, records, id, f), id, p[|p| - 1])
  {
    var n := |p| - 2;
    assert Follows(records, id, p[n], p[n + 1]);
    var s :| s in records && IsMember(s, id) && s.hash == p[n] && p[n + 1] in s.job.value.previous;
    var q := p[..n + 1];
    assert Trail(records, id, q) by {
      forall k | 0 <= k < |q| - 1 ensures Follows(records, id, q[k], q[k + 1]) {
        assert Follows(records, id, p[k], p[k + 1]);
      }
    }
    assert q[0] == f.hash && q[|q| - 1] == s.hash;
    assert Follows(Reached(records, records, id, f), id, s.hash, p[n + 1]);
  }

  lemma {:induction false} ReachedLinksLand(records: seq<Record>, id: string, f: Record)
    requires LinksLand(records, id)
    ensures LinksLand(Reached(records, records, id, f), id)
  {
    var kept := Reached(records, records, id, f);
    forall r, h | r in kept && IsMember(r, id) && h in r.job.value.previous ensures Here(kept, id, h) {
      assert Follows(records, id, r.hash, h);
      TrailMore(records, id, f.hash, r.hash, h);
      assert Here(records, id, h);
      var s :| s in records && IsMember(s, id) && s.hash == h;
      assert s in kept;
    }
  }

  lemma {:induction false} ReachedComplete(records: seq<Record>, f: Record)
    requires VerdictOf(records) == Complete && SingleJob(records) && FinalStep(records, MainJob(records), f)
    ensures VerdictOf(Reached(records, records, MainJob(records), f)) == Complete
  {
    hide LeadsTo, Finals, MainJob, Externals, Followed, Here;
    var id := MainJob(records);
    var kept := Reached(records, records, id, f);
    SingleJobMembers(records);
    LeadsToSelf(records, id, f.hash);
    assert f in kept;
    PartMainJob(kept, records);
    ReachedNoRepeats(records, records, id, f);
    var g := TheFinalStep(records);
    forall h | h in records && IsMember(h, id) && h.job.value.final ensures LeadsTo(records, id, f.hash, h.hash) {
      assert FinalStep(records, id, h);
    }
    ReachedFinals(records, records, id, f);
    ReachedLinksLand(records, id, f);
    forall r | r in kept && IsMember(r, id) && !r.job.value.final ensures Followed(kept, id, r.hash) {
      ReachedFollowed(records, f, r);
    }
  }

  /** Nothing can be dropped from a finished job exactly when its final step leads back to every record: then a part
      is never COMPLETE, and one that keeps the final step is FAILED; with a cycle, the cycle can be cut out unseen. */
  lemma {:induction false} NothingDroppedIff(records: seq<Record>, f: Record)
    requires VerdictOf(records) == Complete && SingleJob(records) && FinalStep(records, MainJob(records), f)
    ensures AllReached(records, f) <==> forall part :: ProperPart(part, records) ==> VerdictOf(part) != Complete
    ensures AllReached(records, f) <==> forall part :: ProperPart(part, records) && f in part ==>
        VerdictOf(part) == Failed
  {
    if AllReached(records, f) {
      forall part | ProperPart(part, records) ensures VerdictOf(part) != Complete
          && (f in part ==> VerdictOf(part) == Failed) {
        if f in part { DroppedRecordFails(part, records, f); } else { PartWithoutFinal(part, records, f); }
      }
    } else {
      var kept := Reached(records, records, MainJob(records), f);
      SingleJobMembers(records);
      LeadsToSelf(records, MainJob(records), f.hash);
      ReachedComplete(records, f);
      assert ProperPart(kept, records) && f in kept;
    }
  }

  /** With a rank that links decrease, nothing can be left out of a finished job: no proper part of it is COMPLETE,
      and one that keeps the final step is FAILED. */
  lemma {:induction false} NothingDropped(records: seq<Record>, f: Record, rank: string -> nat, part: seq<Record>)
    requires VerdictOf(records) == Complete && SingleJob(records) && FinalStep(records, MainJob(records), f)
    requires Ranked(records, MainJob(records), rank) && ProperPart(part, records)
    ensures VerdictOf(part) != Complete && (f in part ==> VerdictOf(part) == Failed)
  {
    hide VerdictOf, SingleJob, FinalStep, Ranked, ProperPart, MainJob, AllReached;
    CompleteReachesAll(records, f, rank);
    NothingDroppedIff(records, f);
  }
}
