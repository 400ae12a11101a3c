/** The job block of a sealed record and the shape its validation demands (internal/artifacts/job.go). */
module Job {
  import opened Text

  const MAX_PREVIOUS := 64
  const MAX_EXTERNAL := 16

  datatype JobLink = JobLink(jobId: string, stepId: string, previous: seq<string>, external: seq<string>, final: bool)

  predicate NameChar(c: char) {
    'A' <= c <= 'Z' || 'a' <= c <= 'z' || '0' <= c <= '9' || c in "._:-"
  }

  predicate ValidName(s: string) { 1 <= |s| <= 128 && forall c :: c in s ==> NameChar(c) }

  predicate LowerHex(c: char) { '0' <= c <= '9' || 'a' <= c <= 'f' }

  predicate ValidHash(s: string) { |s| == 64 && forall c :: c in s ==> LowerHex(c) }

  /** At most so many hashes, each well-formed, sorted with no repeats. */
  ghost predicate ValidHashList(hashes: seq<string>, limit: nat) {
    |hashes| <= limit && (forall h :: h in hashes ==> ValidHash(h)) && Increasing(hashes)
  }

  /** validateHashList: comparing each hash with the one before it is enough to keep the whole list sorted. */
  method ValidateHashList(hashes: seq<string>, limit: nat) returns (ok: bool)
    ensures ok <==> ValidHashList(hashes, limit)
  {
    if |hashes| > limit {
      return false;
    }
    for i := 0 to |hashes|
      invariant forall k :: 0 <= k < i ==> ValidHash(hashes[k])
      invariant Increasing(hashes[..i])
    {
      if !ValidHash(hashes[i]) {
        assert hashes[i] in hashes;
        return false;
      }
      if i > 0 && !Less(hashes[i - 1], hashes[i]) {
        return false;
      }
      forall k | 0 <= k < i ensures Less(hashes[k], hashes[i]) {
        if k < i - 1 {
          assert Less(hashes[..i][k], hashes[..i][i - 1]);
          LessTransitive(hashes[k], hashes[i - 1], hashes[i]);
        }
      }
    }
    assert hashes[..|hashes|] == hashes;
    return true;
  }

  ghost predicate Valid(j: JobLink) {
    ValidName(j.jobId) && ValidName(j.stepId) && ValidHashList(j.previous, MAX_PREVIOUS)
        && ValidHashList(j.external, MAX_EXTERNAL)
  }

  /** JobLink.Validate on a block that is present. */
  method Validate(j: JobLink) returns (ok: bool)
    ensures ok <==> Valid(j)
  {
    if !ValidName(j.jobId) || !ValidName(j.stepId) {
      return false;
    }
    ok := ValidateHashList(j.previous, MAX_PREVIOUS);
    if !ok {
      return;
    }
    ok := ValidateHashList(j.external, MAX_EXTERNAL);
  }
}
