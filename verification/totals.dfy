/** The cross-check between the workers and the aggregator: whatever order
    the channel delivers the workers' messages in, the summary
    `threading_template` computes equals the sum, by `+=`, of the summaries
    the workers computed on their own, and equals the totals the walks
    call for. */
module Totals {
  import opened Utils
  import opened Messages
  import opened Walk
  import opened Aggregate

  /** Everything the scan workers send, root after root. */
  function ScanSent(roots: seq<string>, walks: seq<seq<WalkItem>>): seq<Message>
    requires |roots| == |walks|
  {
    if |walks| == 0 then []
    else ScanSent(roots[..|roots| - 1], walks[..|walks| - 1]) + ScanDir(roots[|roots| - 1], walks[|walks| - 1]).sent
  }

  /** The scan workers' own summaries combined by `+=`. */
  function ScanSum(roots: seq<string>, walks: seq<seq<WalkItem>>): DirData
    requires |roots| == |walks|
  {
    if |walks| == 0 then Zero
    else AddAssign(ScanSum(roots[..|roots| - 1], walks[..|walks| - 1]), ScanDir(roots[|roots| - 1], walks[|walks| - 1]).data)
  }

  /** Everything the nuke workers send, root after root, including what a
      worker sent before it panicked. */
  function NukeSent(walks: seq<seq<WalkItem>>): seq<Message>
  {
    if |walks| == 0 then [] else NukeSent(walks[..|walks| - 1]) + NukeDir(walks[|walks| - 1]).run.sent
  }

  /** The nuke workers' counters combined by `+=`; a panicked worker
      contributes the counters it had when it panicked. */
  function NukeSum(walks: seq<seq<WalkItem>>): DirData
  {
    if |walks| == 0 then Zero else AddAssign(NukeSum(walks[..|walks| - 1]), NukeDir(walks[|walks| - 1]).run.data)
  }

  /** The number of items satisfying `p` over all walks. */
  function CountAll(walks: seq<seq<WalkItem>>, p: WalkItem -> bool): nat
  {
    if |walks| == 0 then 0 else CountAll(walks[..|walks| - 1], p) + Count(walks[|walks| - 1], p)
  }

  /** The total length of the items satisfying `p` over all walks. */
  function BytesAll(walks: seq<seq<WalkItem>>, p: WalkItem -> bool): nat
  {
    if |walks| == 0 then 0 else BytesAll(walks[..|walks| - 1], p) + Bytes(walks[|walks| - 1], p)
  }

  /** All the scan messages add up to the combined scan summaries. */
  lemma {:induction false} ScanSentAddsUp(roots: seq<string>, walks: seq<seq<WalkItem>>)
    requires |roots| == |walks|
    ensures Tally(ScanSent(roots, walks)) == ScanSum(roots, walks)
    decreases |walks|
  {
    if |walks| > 0 {
      var n := |walks|;
      var front, last := ScanSent(roots[..n - 1], walks[..n - 1]), ScanDir(roots[n - 1], walks[n - 1]);
      assert ScanSent(roots, walks) == front + last.sent;
      assert ScanSum(roots, walks) == AddAssign(ScanSum(roots[..n - 1], walks[..n - 1]), last.data);
      ScanSentAddsUp(roots[..n - 1], walks[..n - 1]);
      ScanDirSummary(roots[n - 1], walks[n - 1]);
      TallyAppend(front, last.sent);
    }
  }

  /** The totals over all walks grow by the last walk's totals. */
  lemma AllSnoc(walks: seq<seq<WalkItem>>, p: WalkItem -> bool)
    requires |walks| > 0
    ensures CountAll(walks, p) == CountAll(walks[..|walks| - 1], p) + Count(walks[|walks| - 1], p)
    ensures BytesAll(walks, p) == BytesAll(walks[..|walks| - 1], p) + Bytes(walks[|walks| - 1], p)
  {
  }

  /** The combined scan summaries count the eligible files, their bytes
      and the failures of all roots. */
  lemma {:induction false} ScanSumCounts(roots: seq<string>, walks: seq<seq<WalkItem>>)
    requires |roots| == |walks|
    ensures ScanSum(roots, walks)
         == From(BytesAll(walks, EligibleItem), CountAll(walks, EligibleItem), CountAll(walks, ScanFailure))
    decreases |walks|
  {
    if |walks| > 0 {
      var n := |walks|;
      var front, w := walks[..n - 1], walks[n - 1];
      var d := ScanDir(roots[n - 1], w).data;
      var prev := ScanSum(roots[..n - 1], front);
      ScanDirData(roots[n - 1], w);
      ScanSumCounts(roots[..n - 1], front);
      AllSnoc(walks, EligibleItem);
      AllSnoc(walks, ScanFailure);
      assert ScanSum(roots, walks) == AddAssign(prev, d);
      SumOfFields(AddAssign(prev, d), prev, d,
        From(BytesAll(walks, EligibleItem), CountAll(walks, EligibleItem), CountAll(walks, ScanFailure)));
    }
  }

  /** All the nuke messages add up to the combined nuke counters. */
  lemma {:induction false} NukeSentAddsUp(walks: seq<seq<WalkItem>>)
    ensures Tally(NukeSent(walks)) == NukeSum(walks)
    decreases |walks|
  {
    if |walks| > 0 {
      var n := |walks|;
      var front, last := NukeSent(walks[..n - 1]), NukeDir(walks[n - 1]).run;
      assert NukeSent(walks) == front + last.sent;
      assert NukeSum(walks) == AddAssign(NukeSum(walks[..n - 1]), last.data);
      NukeSentAddsUp(walks[..n - 1]);
      NukeDirSummary(walks[n - 1]);
      TallyAppend(front, last.sent);
    }
  }

  /** Without walk errors, the combined nuke counters count the deleted
      files, their bytes and the failures of all roots. */
  lemma {:induction false} NukeSumCounts(walks: seq<seq<WalkItem>>)
    requires forall i :: 0 <= i < |walks| ==> !HasWalkError(walks[i])
    ensures NukeSum(walks)
         == From(BytesAll(walks, DeletedItem), CountAll(walks, DeletedItem), CountAll(walks, NukeFailure))
    decreases |walks|
  {
    if |walks| > 0 {
      var n := |walks|;
      var front, w := walks[..n - 1], walks[n - 1];
      assert !HasWalkError(w);
      var d := NukeDir(w).run.data;
      var prev := NukeSum(front);
      NukeDirData(w);
      forall i | 0 <= i < |front| ensures !HasWalkError(front[i]) {
        assert front[i] == walks[i];
      }
      NukeSumCounts(front);
      AllSnoc(walks, DeletedItem);
      AllSnoc(walks, NukeFailure);
      assert NukeSum(walks) == AddAssign(prev, d);
      SumOfFields(AddAssign(prev, d), prev, d,
        From(BytesAll(walks, DeletedItem), CountAll(walks, DeletedItem), CountAll(walks, NukeFailure)));
    }
  }

  /** Scan mode, end to end: for any order in which the channel delivers
      the workers' messages, the summary `threading_template` returns is
      the `+=` sum of the workers' own summaries, that is the eligible
      files' bytes, their number, and the number of failures of all roots. */
  lemma ScanTotals(roots: seq<string>, walks: seq<seq<WalkItem>>, msgs: seq<Message>, quiet: bool)
    requires |roots| == |walks|
    requires multiset(msgs) == multiset(ScanSent(roots, walks))
    ensures ThreadingTemplate(msgs, quiet) == ScanSum(roots, walks)
    ensures ThreadingTemplate(msgs, quiet)
         == From(BytesAll(walks, EligibleItem), CountAll(walks, EligibleItem), CountAll(walks, ScanFailure))
  {
    TallyPermutation(msgs, ScanSent(roots, walks));
    ScanSentAddsUp(roots, walks);
    ScanSumCounts(roots, walks);
  }

  /** Nuke mode, end to end: for any delivery order, the summary returned
      is the `+=` sum of the workers' counters, panicked workers included;
      without walk errors that is the deleted files' bytes, their number,
      and the failed removals and unreadable entries of all roots. */
  lemma NukeTotals(walks: seq<seq<WalkItem>>, msgs: seq<Message>, quiet: bool)
    requires multiset(msgs) == multiset(NukeSent(walks))
    ensures ThreadingTemplate(msgs, quiet) == NukeSum(walks)
    ensures (forall i :: 0 <= i < |walks| ==> !HasWalkError(walks[i])) ==>
              ThreadingTemplate(msgs, quiet)
              == From(BytesAll(walks, DeletedItem), CountAll(walks, DeletedItem), CountAll(walks, NukeFailure))
  {
    TallyPermutation(msgs, NukeSent(walks));
    NukeSentAddsUp(walks);
    if forall i :: 0 <= i < |walks| ==> !HasWalkError(walks[i]) {
      NukeSumCounts(walks);
    }
  }
}
