/**
 The job map takes the files of a folder in the order of their names. Renaming them changes neither the verdict nor,
 when nothing is wrong, the job the map is about.
 */
module JobOrder {
  import opened Text
  import opened Job
  import opened JobMap
  import opened JobGraph

  /** The records without their file names. */
  function Unnamed(records: seq<Record>): seq<Record> {
    if records == [] then [] else [records[0].(file := "")] + Unnamed(records[1..])
  }

  // ----- Taking records in another order -----

  ghost predicate Shuffled(a: seq<Record>, b: seq<Record>) { multiset(a) == multiset(b) }

  lemma {:induction false} SameMembers(a: seq<Record>, b: seq<Record>)
    requires Shuffled(a, b)
    ensures |a| == |b| && Externals(a) == Externals(b) && forall r :: r in a <==> r in b
  {
    assert |multiset(a)| == |a| && |multiset(b)| == |b|;
    forall r ensures r in a <==> r in b { assert r in multiset(a) <==> r in multiset(b); }
  }

  /** The records outside the external targets name the job, if they all name one. */
  lemma {:induction false} FirstJobIs(records: seq<Record>, external: set<string>, id: string)
    requires forall r :: r in records && r.job.Some? && r.hash !in external ==> r.job.value.jobId == id
    ensures FirstJob(records, external) ==
            if exists r :: r in records && r.job.Some? && r.hash !in external then id else ""
  {
    if records != [] {
      assert records == [records[0]] + records[1..];
      FirstJobIs(records[1..], external, id);
      assert records[0] in records;
    }
  }

  lemma {:induction false} SameMainJob(a: seq<Record>, b: seq<Record>)
    requires Shuffled(a, b) && Clean(a)
    ensures MainJob(a) == MainJob(b)
  {
    hide Finals, NoRepeats, LinksLand, BranchesJoin, FirstJob, Externals, Shuffled;
    SameMembers(a, b);
    FirstJobIs(a, Externals(a), MainJob(a));
    FirstJobIs(b, Externals(a), MainJob(a));
  }

  lemma {:induction false} TwiceIffMany(s: seq<Record>, r: Record)
    ensures multiset(s)[r] >= 1 <==> exists i :: 0 <= i < |s| && s[i] == r
    ensures multiset(s)[r] >= 2 <==> exists i, j :: 0 <= i < j < |s| && s[i] == s[j] == r
  {
    if s != [] {
      var n := |s| - 1;
      var init := s[..n];
      assert s == init + [s[n]];
      TwiceIffMany(init, r);
      assert forall i :: 0 <= i < n ==> init[i] == s[i];
    }
  }

  /** Two places in one order are two places in the other. */
  lemma {:induction false} Elsewhere(a: seq<Record>, b: seq<Record>, i: nat, j: nat) returns (k: nat, l: nat)
    requires Shuffled(a, b) && i < j < |b|
    ensures k < l < |a| && multiset{a[k], a[l]} == multiset{b[i], b[j]}
  {
    if b[i] == b[j] {
      TwiceIffMany(b, b[i]);
      TwiceIffMany(a, b[i]);
      k, l :| 0 <= k < l < |a| && a[k] == a[l] == b[i];
    } else {
      SameMembers(a, b);
      assert b[i] in b && b[j] in b;
      var x: nat :| x < |a| && a[x] == b[i];
      var y: nat :| y < |a| && a[y] == b[j];
      k, l := if x < y then x else y, if x < y then y else x;
    }
  }

  lemma {:induction false} StillNoRepeats(a: seq<Record>, b: seq<Record>, id: string)
    requires Shuffled(a, b) && NoRepeats(a, id)
    ensures NoRepeats(b, id)
  {
    hide Shuffled;
    forall i: nat, j: nat | i < j < |b| && IsMember(b[i], id) && IsMember(b[j], id)
      ensures b[i].hash != b[j].hash && b[i].job.value.stepId != b[j].job.value.stepId
    {
      var k, l := Elsewhere(a, b, i, j);
      PairIs(a[k], a[l], b[i], b[j]);
    }
  }

  lemma {:induction false} PairIs(x: Record, y: Record, u: Record, v: Record)
    requires multiset{x, y} == multiset{u, v}
    ensures (x == u && y == v) || (x == v && y == u)
  {
    assert x in multiset{u, v} && y in multiset{u, v} && u in multiset{x, y} && v in multiset{x, y};
  }

  lemma {:induction false} NoFinals(id: string)
    ensures Finals([], id) == []
  {
  }

  lemma {:induction false} FinalsJoin(x: seq<Record>, y: seq<Record>, id: string)
    ensures Finals(x + y, id) == Finals(x, id) + Finals(y, id)
    decreases |y|
  {
    hide Finals;
    if y == [] {
      assert x + y == x && y == [];
      NoFinals(id);
    } else {
      var n := |y| - 1;
      var init, last := x + y[..n], y[n];
      assert x + y == init + [last] && y == y[..n] + [last];
      FinalsMore(init, last, id);
      FinalsMore(y[..n], last, id);
      FinalsJoin(x, y[..n], id);
    }
  }

  /** Taking one record out takes as many final marks away wherever it stands. */
  lemma {:induction false} FinalsWithout(x: seq<Record>, r: Record, y: seq<Record>, id: string)
    ensures |Finals(x + ([r] + y), id)| == |Finals([r], id)| + |Finals(x + y, id)|
  {
    hide Finals;
    FinalsJoin(x, [r] + y, id);
    FinalsJoin([r], y, id);
    FinalsJoin(x, y, id);
  }

  lemma {:induction false} ShuffledWithout(r: Record, rest: seq<Record>, x: seq<Record>, y: seq<Record>)
    requires Shuffled([r] + rest, x + ([r] + y))
    ensures Shuffled(rest, x + y)
  {
    assert multiset([r] + rest) == multiset{r} + multiset(rest);
    assert multiset(x + ([r] + y)) == multiset{r} + multiset(x + y);
    assert multiset(rest) == multiset([r] + rest) - multiset{r};
    assert multiset(x + y) == multiset(x + ([r] + y)) - multiset{r};
  }

  /** As many records are marked final. */
  lemma {:induction false} SameCount(a: seq<Record>, b: seq<Record>, id: string)
    requires Shuffled(a, b)
    ensures |Finals(a, id)| == |Finals(b, id)|
    decreases |a|
  {
    hide Finals, Shuffled;
    SameMembers(a, b);
    if a != [] {
      var r, rest := a[0], a[1..];
      assert r in a;
      var k: nat :| k < |b| && b[k] == r;
      var x, y := b[..k], b[k + 1..];
      assert a == [r] + rest && b == x + ([r] + y);
      ShuffledWithout(r, rest, x, y);
      SameCount(rest, x + y, id);
      FinalsWithout([], r, rest, id);
      FinalsWithout(x, r, y, id);
      assert [] + ([r] + rest) == a && [] + rest == rest;
    }
  }

  lemma {:induction false} StillLinked(a: seq<Record>, b: seq<Record>, id: string)
    requires forall r :: r in a <==> r in b
    ensures LinksLand(a, id) ==> LinksLand(b, id)
    ensures BranchesJoin(a, id) ==> BranchesJoin(b, id)
  {
    assert forall h :: Here(a, id, h) ==> Here(b, id, h);
    forall x, h | Follows(a, id, x, h) ensures Follows(b, id, x, h) {}
    assert forall h :: Followed(a, id, h) ==> Followed(b, id, h);
  }

  lemma {:induction false} StillClean(a: seq<Record>, b: seq<Record>)
    requires Shuffled(a, b) && Clean(a)
    ensures Clean(b) && MainJob(a) == MainJob(b) && VerdictOf(a) == VerdictOf(b)
  {
    hide Shuffled, Finals, NoRepeats, LinksLand, BranchesJoin, MainJob, Externals, Placed;
    SameMembers(a, b);
    SameMainJob(a, b);
    var id := MainJob(a);
    StillNoRepeats(a, b, id);
    SameCount(a, b, id);
    StillLinked(a, b, id);
  }

  /** The order of the records does not matter. */
  lemma {:induction false} OrderForgotten(a: seq<Record>, b: seq<Record>)
    requires Shuffled(a, b)
    ensures VerdictOf(a) == VerdictOf(b) && (Clean(a) <==> Clean(b))
    ensures Clean(a) ==> MainJob(a) == MainJob(b)
  {
    hide Clean;
    if Clean(a) {
      StillClean(a, b);
    } else if Clean(b) {
      StillClean(b, a);
    }
  }

  // ----- Giving files other names -----

  lemma {:induction false} UnnamedAt(records: seq<Record>)
    ensures |Unnamed(records)| == |records|
    ensures forall i :: 0 <= i < |records| ==> Unnamed(records)[i] == records[i].(file := "")
  {
    if records != [] {
      UnnamedAt(records[1..]);
    }
  }

  lemma {:induction false} UnnamedFinals(records: seq<Record>, other: seq<Record>, id: string)
    requires |records| == |other| && forall i :: 0 <= i < |records| ==> other[i] == records[i].(file := "")
    ensures |Finals(other, id)| == |Finals(records, id)|
  {
    if records != [] {
      UnnamedFinals(records[..|records| - 1], other[..|other| - 1], id);
    }
  }

  lemma {:induction false} UnnamedFirst(records: seq<Record>, external: set<string>)
    ensures FirstJob(Unnamed(records), external) == FirstJob(records, external)
  {
    if records != [] {
      UnnamedFirst(records[1..], external);
      assert Unnamed(records)[1..] == Unnamed(records[1..]);
    }
  }

  lemma {:induction false} UnnamedGraph(a: seq<Record>, b: seq<Record>, id: string)
    requires |a| == |b| && forall i :: 0 <= i < |a| ==> b[i] == a[i].(file := "")
    ensures forall h :: Here(a, id, h) <==> Here(b, id, h)
    ensures forall x, h :: Follows(a, id, x, h) <==> Follows(b, id, x, h)
    ensures Externals(a) == Externals(b)
  {
    forall r | r in a ensures r.(file := "") in b {
      var i :| 0 <= i < |a| && a[i] == r;
      assert b[i] in b;
    }
    forall r | r in b ensures exists q :: q in a && r == q.(file := "") {
      var i :| 0 <= i < |b| && b[i] == r;
      assert a[i] in a;
    }
  }

  lemma {:induction false} UnnamedPlaces(a: seq<Record>, b: seq<Record>, id: string, external: set<string>)
    requires |a| == |b| && forall i :: 0 <= i < |a| ==> b[i] == a[i].(file := "")
    ensures (forall r :: r in a ==> Placed(r, id, external)) <==> (forall r :: r in b ==> Placed(r, id, external))
  {
    forall i | 0 <= i < |a| ensures Placed(a[i], id, external) <==> Placed(b[i], id, external) {
      SamePlace(a[i], b[i], id, external);
    }
    hide Placed;
    assert forall i :: 0 <= i < |a| ==> a[i] in a && b[i] in b;
  }

  lemma {:induction false} SamePlace(r: Record, q: Record, id: string, external: set<string>)
    requires q == r.(file := "")
    ensures Placed(r, id, external) <==> Placed(q, id, external)
  {
    hide Valid;
  }

  lemma {:induction false} UnnamedRepeats(a: seq<Record>, b: seq<Record>, id: string)
    requires |a| == |b| && forall i :: 0 <= i < |a| ==> b[i] == a[i].(file := "")
    ensures NoRepeats(a, id) <==> NoRepeats(b, id)
  {
  }

  lemma {:induction false} UnnamedLinks(a: seq<Record>, b: seq<Record>, id: string)
    requires |a| == |b| && forall i :: 0 <= i < |a| ==> b[i] == a[i].(file := "")
    ensures LinksLand(a, id) <==> LinksLand(b, id)
    ensures BranchesJoin(a, id) <==> BranchesJoin(b, id)
  {
    UnnamedGraph(a, b, id);
    assert forall h :: Followed(a, id, h) <==> Followed(b, id, h);
    LinksByHash(a, id);
    LinksByHash(b, id);
    BranchesByPlace(a, id);
    BranchesByPlace(b, id);
  }

  lemma {:induction false} LinksByHash(records: seq<Record>, id: string)
    ensures LinksLand(records, id) <==> forall x, h :: Follows(records, id, x, h) ==> Here(records, id, h)
  {
    hide Here;
    forall r, h | r in records && IsMember(r, id) && h in r.job.value.previous
      ensures Follows(records, id, r.hash, h) {}
  }

  lemma {:induction false} BranchesByPlace(records: seq<Record>, id: string)
    ensures BranchesJoin(records, id) <==>
            forall i :: 0 <= i < |records| && IsMember(records[i], id) && !records[i].job.value.final ==>
              Followed(records, id, records[i].hash)
  {
    hide Followed;
    assert forall i :: 0 <= i < |records| ==> records[i] in records;
  }

  lemma {:induction false} NamesForgotten(records: seq<Record>)
    ensures MainJob(Unnamed(records)) == MainJob(records) && VerdictOf(Unnamed(records)) == VerdictOf(records)
    ensures Clean(Unnamed(records)) <==> Clean(records)
  {
    hide Finals, NoRepeats, LinksLand, BranchesJoin, Externals, FirstJob, Placed, Unnamed;
    var other := Unnamed(records);
    UnnamedAt(records);
    var id := MainJob(records);
    UnnamedGraph(records, other, id);
    UnnamedFirst(records, Externals(records));
    UnnamedFinals(records, other, id);
    UnnamedPlaces(records, other, id, Externals(records));
    UnnamedRepeats(records, other, id);
    UnnamedLinks(records, other, id);
  }

  /** So renaming the files of a folder, which also puts them in another order, changes nothing. */
  lemma {:induction false} RenamingChangesNothing(a: seq<Record>, b: seq<Record>)
    requires multiset(Unnamed(a)) == multiset(Unnamed(b))
    ensures VerdictOf(a) == VerdictOf(b) && (Clean(a) ==> MainJob(a) == MainJob(b))
  {
    hide Clean, VerdictOf, MainJob, Unnamed;
    NamesForgotten(a);
    NamesForgotten(b);
    OrderForgotten(Unnamed(a), Unnamed(b));
  }
}
