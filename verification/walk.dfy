/** One worker: the walk over one root in scan mode (`scan_dir`) or in
    nuke mode (`nuke_dir`), with the entry classifier `scan_file`.

    The directory walk itself is an input: the sequence of items the walk
    yields, in walk order. Each item is either a walk error or an entry
    together with what reading its metadata gave and what removing it
    would give. Every worker is a left fold over that sequence whose state
    is the messages sent so far and the three counters. */
module Walk {
  import opened Utils
  import opened Messages

  /** The parts of an entry's metadata the classifier looks at. */
  datatype Metadata = Metadata(isFile: bool, isSymlink: bool, len: nat)

  /** What `remove_file` on the entry's path gives; consulted in nuke mode only. */
  datatype Removal = Removed | RemoveFailed(reason: string)

  /** An entry the walk reached: its file name, the metadata or the text of
      the error reading it, and the outcome of removing it. */
  datatype DirEntry = DirEntry(name: string, metadata: Result<Metadata, string>, removal: Removal)

  /** One item of the walk: an error of the walk itself, or an entry. */
  datatype WalkItem = WalkError(reason: string) | Visit(entry: DirEntry)

  /** The worker's loop state: the messages sent so far and the counters. */
  datatype Run = Run(sent: seq<Message>, data: DirData)

  /** How a nuke worker ends: it returns its counters, or a walk error made
      it panic, leaving the counters it had at that point unreturned. */
  datatype Exit = Returned(run: Run) | Panicked(run: Run)

  // ---------------------------------------------------------------------
  // Classification, stated independently of the code's control flow.

  /** An eligible entry: metadata readable, a regular file, not a link. */
  predicate IsEligible(e: DirEntry)
  {
    e.metadata.Ok? && e.metadata.value.isFile && !e.metadata.value.isSymlink
  }

  /** A skipped entry: readable but not eligible (a directory or a link).
      The sentinel is recognised by its text, so an unreadable entry whose
      error text is the sentinel text is skipped as well. */
  predicate IsSkipped(e: DirEntry)
  {
    (e.metadata.Ok? && !IsEligible(e)) || (e.metadata.Err? && e.metadata.error == SubDirText)
  }

  /** An entry whose metadata could not be read, reported as a failure. */
  predicate IsUnreadable(e: DirEntry)
  {
    e.metadata.Err? && e.metadata.error != SubDirText
  }

  /** `scan_file`: the length of an eligible entry, the sentinel for a
      directory or link, or the metadata error converted to `AppError`. */
  function ScanFile(e: DirEntry): (r: Result<nat, AppError>)
    ensures r.Ok? <==> IsEligible(e)
    ensures r.Ok? ==> r.value == e.metadata.value.len
    ensures r == Err(SubDirError()) <==> IsSkipped(e)
    ensures IsUnreadable(e) <==> r.Err? && r != Err(SubDirError())
    ensures IsUnreadable(e) ==> r.error.msg == e.metadata.error
  {
    match e.metadata
    case Ok(m) => if m.isFile && !m.isSymlink then Ok(m.len) else Err(SubDirError())
    case Err(reason) => Err(AppError(reason))
  }

  /** Every entry is exactly one of eligible, skipped and unreadable. */
  lemma Trichotomy(e: DirEntry)
    ensures IsEligible(e) || IsSkipped(e) || IsUnreadable(e)
    ensures !(IsEligible(e) && IsSkipped(e))
    ensures !(IsEligible(e) && IsUnreadable(e))
    ensures !(IsSkipped(e) && IsUnreadable(e))
  {
  }

  predicate EligibleItem(item: WalkItem) { item.Visit? && IsEligible(item.entry) }

  predicate SkippedItem(item: WalkItem) { item.Visit? && IsSkipped(item.entry) }

  predicate UnreadableItem(item: WalkItem) { item.Visit? && IsUnreadable(item.entry) }

  /** A failure in scan mode: a walk error or an unreadable entry. */
  predicate ScanFailure(item: WalkItem) { item.WalkError? || UnreadableItem(item) }

  /** An eligible entry whose removal succeeds. */
  predicate DeletedItem(item: WalkItem) { EligibleItem(item) && item.entry.removal.Removed? }

  /** An eligible entry whose removal fails. */
  predicate UndeletedItem(item: WalkItem) { EligibleItem(item) && item.entry.removal.RemoveFailed? }

  /** A failure in nuke mode: an unreadable entry or a failed removal. */
  predicate NukeFailure(item: WalkItem) { UnreadableItem(item) || UndeletedItem(item) }

  /** The byte length an item's metadata reports, 0 when there is none. */
  function Len(item: WalkItem): nat
  {
    if item.Visit? && item.entry.metadata.Ok? then item.entry.metadata.value.len else 0
  }

  /** The number of items satisfying `p`. */
  function Count(items: seq<WalkItem>, p: WalkItem -> bool): nat
  {
    if |items| == 0 then 0
    else Count(items[..|items| - 1], p) + (if p(items[|items| - 1]) then 1 else 0)
  }

  /** The total length of the items satisfying `p`. */
  function Bytes(items: seq<WalkItem>, p: WalkItem -> bool): nat
  {
    if |items| == 0 then 0
    else Bytes(items[..|items| - 1], p) + (if p(items[|items| - 1]) then Len(items[|items| - 1]) else 0)
  }

  /** The message a scan worker owes one item, if any: a walk error under
      the root's name, an eligible entry's length or an unreadable entry's
      error under the entry's name, nothing for a skipped entry. */
  function ScanReport(root: string, item: WalkItem): seq<Message>
  {
    match item
    case WalkError(reason) => [Message(root, Err(AppError(reason)))]
    case Visit(e) =>
      if IsEligible(e) then [Message(e.name, Ok(e.metadata.value.len))]
      else if IsUnreadable(e) then [Message(e.name, Err(AppError(e.metadata.error)))]
      else []
  }

  /** The messages a scan worker owes a walk, in walk order. */
  function ScanReports(root: string, items: seq<WalkItem>): seq<Message>
  {
    if |items| == 0 then []
    else ScanReports(root, items[..|items| - 1]) + ScanReport(root, items[|items| - 1])
  }

  /** The message a nuke worker owes one entry, if any. */
  function NukeReport(e: DirEntry): seq<Message>
  {
    if IsEligible(e) then
      match e.removal
      case Removed => [Message(e.name, Ok(e.metadata.value.len))]
      case RemoveFailed(reason) => [Message(e.name, Err(AppError(reason)))]
    else if IsUnreadable(e) then [Message(e.name, Err(AppError(e.metadata.error)))]
    else []
  }

  /** The messages a nuke worker owes a walk without walk errors. */
  function NukeReports(items: seq<WalkItem>): seq<Message>
  {
    if |items| == 0 then []
    else
      var last := items[|items| - 1];
      NukeReports(items[..|items| - 1]) + (if last.Visit? then NukeReport(last.entry) else [])
  }

  /** Whether the walk yields a walk error anywhere. */
  predicate HasWalkError(items: seq<WalkItem>)
  {
    exists k :: 0 <= k < |items| && items[k].WalkError?
  }

  // ---------------------------------------------------------------------
  // The workers, following the source's loop bodies.

  /** One iteration of `scan_dir`'s loop. It only appends to what was
      sent, at most one message, and every message it sends is counted
      once, as completed or as an error. */
  function ScanStep(root: string, run: Run, item: WalkItem): (r: Run)
    ensures run.sent <= r.sent && |r.sent| <= |run.sent| + 1
    ensures r.data.completed + r.data.error == run.data.completed + run.data.error + (|r.sent| - |run.sent|)
    ensures r.data.size >= run.data.size
  {
    var d := run.data;
    match item
    case WalkError(reason) =>
      Run(run.sent + [Message(root, Err(AppError(reason)))], DirData(d.size, d.completed, d.error + 1))
    case Visit(e) =>
      match ScanFile(e)
      case Ok(len) =>
        Run(run.sent + [Message(e.name, Ok(len))], DirData(d.size + len, d.completed + 1, d.error))
      case Err(err) =>
        if err != SubDirError() then
          Run(run.sent + [Message(e.name, Err(err))], DirData(d.size, d.completed, d.error + 1))
        else run
  }

  /** What one scan iteration does: it sends exactly the report owed to
      the item and moves each counter by what the item's class adds; a
      skipped entry sends nothing. */
  lemma ScanStepEffect(root: string, run: Run, item: WalkItem)
    ensures ScanStep(root, run, item).sent == run.sent + ScanReport(root, item)
    ensures ScanStep(root, run, item).data.completed == run.data.completed + (if EligibleItem(item) then 1 else 0)
    ensures ScanStep(root, run, item).data.size == run.data.size + (if EligibleItem(item) then Len(item) else 0)
    ensures ScanStep(root, run, item).data.error == run.data.error + (if ScanFailure(item) then 1 else 0)
    ensures |ScanReport(root, item)| == (if SkippedItem(item) then 0 else 1)
  {
    var d := run.data;
    match item
    case WalkError(reason) =>
      var m := Message(root, Err(AppError(reason)));
      assert ScanStep(root, run, item) == Run(run.sent + [m], DirData(d.size, d.completed, d.error + 1));
    case Visit(e) =>
      Trichotomy(e);
      if IsEligible(e) {
        var len := e.metadata.value.len;
        var m := Message(e.name, Ok(len));
        assert ScanReport(root, item) == [m];
        assert ScanStep(root, run, item) == Run(run.sent + [m], DirData(d.size + len, d.completed + 1, d.error));
      } else if IsUnreadable(e) {
        var m := Message(e.name, Err(AppError(e.metadata.error)));
        assert ScanReport(root, item) == [m];
        assert ScanStep(root, run, item) == Run(run.sent + [m], DirData(d.size, d.completed, d.error + 1));
      } else {
        assert ScanReport(root, item) == [];
        assert ScanStep(root, run, item) == run;
        assert run.sent + [] == run.sent;
      }
  }

  /** What an item adds to the scan counters: an eligible entry its bytes
      and one completed item, a walk error or an unreadable entry one
      failed item, a skipped entry nothing. */
  function ScanDelta(item: WalkItem): DirData
  {
    DirData(if EligibleItem(item) then Len(item) else 0,
            if EligibleItem(item) then 1 else 0,
            if ScanFailure(item) then 1 else 0)
  }

  /** The report owed to an item adds up to what the item's class adds to
      the counters. */
  lemma ScanReportTally(root: string, item: WalkItem)
    ensures Tally(ScanReport(root, item)) == ScanDelta(item)
  {
    if item.Visit? && IsSkipped(item.entry) {
      SkippedReportTally(root, item);
    } else {
      OwedReportTally(root, item);
    }
  }

  /** A skipped entry is owed nothing and counts nowhere. */
  lemma SkippedReportTally(root: string, item: WalkItem)
    requires item.Visit? && IsSkipped(item.entry)
    ensures Tally(ScanReport(root, item)).size == (if EligibleItem(item) then Len(item) else 0)
    ensures Tally(ScanReport(root, item)).completed == (if EligibleItem(item) then 1 else 0)
    ensures Tally(ScanReport(root, item)).error == (if ScanFailure(item) then 1 else 0)
  {
    Trichotomy(item.entry);
    assert ScanReport(root, item) == [];
  }

  /** Any other item is owed one message, which counts by the item's class. */
  lemma OwedReportTally(root: string, item: WalkItem)
    requires !(item.Visit? && IsSkipped(item.entry))
    ensures Tally(ScanReport(root, item)).size == (if EligibleItem(item) then Len(item) else 0)
    ensures Tally(ScanReport(root, item)).completed == (if EligibleItem(item) then 1 else 0)
    ensures Tally(ScanReport(root, item)).error == (if ScanFailure(item) then 1 else 0)
  {
    TallySingle(OwedMessage(root, item));
  }

  /** The single message owed to an item that is not skipped, and what it
      contributes. */
  function OwedMessage(root: string, item: WalkItem): (m: Message)
    requires !(item.Visit? && IsSkipped(item.entry))
    ensures ScanReport(root, item) == [m]
    ensures Contribution(m).size == (if EligibleItem(item) then Len(item) else 0)
    ensures Contribution(m).completed == (if EligibleItem(item) then 1 else 0)
    ensures Contribution(m).error == (if ScanFailure(item) then 1 else 0)
  {
    match item
    case WalkError(reason) => Message(root, Err(AppError(reason)))
    case Visit(e) =>
      Trichotomy(e);
      if IsEligible(e) then Message(e.name, Ok(e.metadata.value.len))
      else Message(e.name, Err(AppError(e.metadata.error)))
  }

  /** `scan_dir`: the loop over the walk, one `ScanStep` per item. */
  function ScanDir(root: string, items: seq<WalkItem>): (r: Run)
    ensures |r.sent| <= |items|
    ensures r.data.completed + r.data.error == |r.sent|
    decreases |items|
  {
    if |items| == 0 then Run([], Zero)
    else ScanStep(root, ScanDir(root, items[..|items| - 1]), items[|items| - 1])
  }

  /** Scanning one more item is one more iteration. */
  lemma ScanDirSnoc(root: string, s: seq<WalkItem>, y: WalkItem)
    ensures ScanDir(root, s + [y]) == ScanStep(root, ScanDir(root, s), y)
  {
    var sy := s + [y];
    assert sy[..|sy| - 1] == s && sy[|sy| - 1] == y;
  }

  /** The counters `scan_dir` returns: the eligible entries, their bytes,
      and the walk errors and unreadable entries. */
  lemma {:induction false} ScanDirCounts(root: string, items: seq<WalkItem>)
    ensures ScanDir(root, items).data.completed == Count(items, EligibleItem)
    ensures ScanDir(root, items).data.size == Bytes(items, EligibleItem)
    ensures ScanDir(root, items).data.error == Count(items, ScanFailure)
    decreases |items|
  {
    if |items| > 0 {
      var front, last := items[..|items| - 1], items[|items| - 1];
      ScanDirCounts(root, front);
      ScanStepEffect(root, ScanDir(root, front), last);
    }
  }

  /** The messages `scan_dir` sends: the reports owed, in walk order, one
      per item that is not a skipped entry. */
  lemma {:induction false} ScanDirSent(root: string, items: seq<WalkItem>)
    ensures ScanDir(root, items).sent == ScanReports(root, items)
    ensures |ScanDir(root, items).sent| == |items| - Count(items, SkippedItem)
    decreases |items|
  {
    if |items| > 0 {
      var front, last := items[..|items| - 1], items[|items| - 1];
      ScanDirSent(root, front);
      ScanStepEffect(root, ScanDir(root, front), last);
    }
  }

  /** The messages `scan_dir` sends add up to the summary it returns. */
  lemma {:induction false} ScanDirTally(root: string, items: seq<WalkItem>)
    ensures Tally(ScanDir(root, items).sent) == ScanDir(root, items).data
    decreases |items|
  {
    if |items| == 0 {
      assert ScanDir(root, items) == Run([], Zero);
    } else {
      ScanDirTally(root, items[..|items| - 1]);
      ScanTallyStep(root, items);
    }
  }

  /** One more scan iteration keeps the messages adding up to the counters. */
  lemma ScanTallyStep(root: string, items: seq<WalkItem>)
    requires |items| > 0
    requires Tally(ScanDir(root, items[..|items| - 1]).sent) == ScanDir(root, items[..|items| - 1]).data
    ensures Tally(ScanDir(root, items).sent) == ScanDir(root, items).data
  {
    var front, last := items[..|items| - 1], items[|items| - 1];
    var prev := ScanDir(root, front);
    assert ScanDir(root, items) == ScanStep(root, prev, last);
    ScanStepEffect(root, prev, last);
    ScanStepTally(root, prev, last);
    TallyAppend(prev.sent, ScanReport(root, last));
  }

  /** One scan iteration adds to the counters what the item's class adds. */
  lemma ScanStepAdds(root: string, run: Run, item: WalkItem)
    ensures ScanStep(root, run, item).data == AddAssign(run.data, ScanDelta(item))
  {
    ScanStepEffect(root, run, item);
    SumOfFields(AddAssign(run.data, ScanDelta(item)), run.data, ScanDelta(item), ScanStep(root, run, item).data);
  }

  /** One scan iteration adds to the counters exactly what the report it
      sends tallies. */
  lemma ScanStepTally(root: string, run: Run, item: WalkItem)
    ensures ScanStep(root, run, item).data == AddAssign(run.data, Tally(ScanReport(root, item)))
  {
    ScanStepAdds(root, run, item);
    ScanReportTally(root, item);
  }

  /** What `scan_dir` sends and returns. The summary counts the eligible
      entries and their bytes and the failures; the messages are exactly
      the reports owed, in walk order, one per entry that is not skipped;
      and the messages add up to the summary the worker returns. */
  lemma ScanDirSummary(root: string, items: seq<WalkItem>)
    ensures ScanDir(root, items).data.completed == Count(items, EligibleItem)
    ensures ScanDir(root, items).data.size == Bytes(items, EligibleItem)
    ensures ScanDir(root, items).data.error == Count(items, ScanFailure)
    ensures ScanDir(root, items).sent == ScanReports(root, items)
    ensures Tally(ScanDir(root, items).sent) == ScanDir(root, items).data
    ensures |ScanDir(root, items).sent| == |items| - Count(items, SkippedItem)
  {
    ScanDirCounts(root, items);
    ScanDirSent(root, items);
    ScanDirTally(root, items);
  }

  /** The summary `scan_dir` returns, on its own. */
  lemma ScanDirData(root: string, items: seq<WalkItem>)
    ensures ScanDir(root, items).data == From(Bytes(items, EligibleItem), Count(items, EligibleItem), Count(items, ScanFailure))
  {
    ScanDirSummary(root, items);
  }

  /** One iteration of `nuke_dir`'s loop; a walk error panics with the
      run untouched. It only appends to what was sent, at most one
      message, and every message it sends is counted once. */
  function NukeStep(run: Run, item: WalkItem): (r: Exit)
    ensures r.Panicked? ==> r.run == run
    ensures run.sent <= r.run.sent && |r.run.sent| <= |run.sent| + 1
    ensures r.run.data.completed + r.run.data.error == run.data.completed + run.data.error + (|r.run.sent| - |run.sent|)
    ensures r.run.data.size >= run.data.size
  {
    var d := run.data;
    match item
    case WalkError(_) => Panicked(run)
    case Visit(e) =>
      match ScanFile(e)
      case Ok(len) =>
        (match e.removal
         case Removed =>
           Returned(Run(run.sent + [Message(e.name, Ok(len))], DirData(d.size + len, d.completed + 1, d.error)))
         case RemoveFailed(reason) =>
           Returned(Run(run.sent + [Message(e.name, Err(AppError(reason)))], DirData(d.size, d.completed, d.error + 1))))
      case Err(err) =>
        if err != SubDirError() then
          Returned(Run(run.sent + [Message(e.name, Err(err))], DirData(d.size, d.completed, d.error + 1)))
        else Returned(run)
  }

  /** What one nuke iteration does: a walk error panics with the run
      untouched; any entry sends exactly the report owed to it and moves
      each counter by what the entry's class adds. */
  lemma NukeStepEffect(run: Run, item: WalkItem)
    ensures NukeStep(run, item).Panicked? <==> item.WalkError?
    ensures item.WalkError? ==> NukeStep(run, item).run == run
    ensures item.Visit? ==> NukeStep(run, item).run.sent == run.sent + NukeReport(item.entry)
    ensures NukeStep(run, item).run.data.completed == run.data.completed + (if DeletedItem(item) then 1 else 0)
    ensures NukeStep(run, item).run.data.size == run.data.size + (if DeletedItem(item) then Len(item) else 0)
    ensures NukeStep(run, item).run.data.error == run.data.error + (if NukeFailure(item) then 1 else 0)
  {
    match item
    case WalkError(_) =>
    case Visit(e) =>
      Trichotomy(e);
      var d := run.data;
      if IsEligible(e) {
        var len := e.metadata.value.len;
        match e.removal
        case Removed =>
          var m := Message(e.name, Ok(len));
          assert NukeStep(run, item) == Returned(Run(run.sent + [m], DirData(d.size + len, d.completed + 1, d.error)));
        case RemoveFailed(reason) =>
          var m := Message(e.name, Err(AppError(reason)));
          assert NukeStep(run, item) == Returned(Run(run.sent + [m], DirData(d.size, d.completed, d.error + 1)));
      } else if IsUnreadable(e) {
        var m := Message(e.name, Err(AppError(e.metadata.error)));
        assert NukeStep(run, item) == Returned(Run(run.sent + [m], DirData(d.size, d.completed, d.error + 1)));
      } else {
        assert NukeStep(run, item) == Returned(run);
        assert run.sent + [] == run.sent;
      }
  }

  /** What an entry adds to the nuke counters: a deleted file its bytes
      and one completed item, a failed removal or an unreadable entry one
      failed item, anything else nothing. */
  function NukeDelta(item: WalkItem): DirData
  {
    DirData(if DeletedItem(item) then Len(item) else 0,
            if DeletedItem(item) then 1 else 0,
            if NukeFailure(item) then 1 else 0)
  }

  /** The report owed to an entry adds up to what the entry adds to the
      nuke counters. */
  lemma NukeReportTally(e: DirEntry)
    ensures Tally(NukeReport(e)) == NukeDelta(Visit(e))
  {
    if IsSkipped(e) {
      SkippedNukeTally(e);
    } else {
      OwedNukeTally(e);
    }
  }

  /** A skipped entry is owed nothing in nuke mode and counts nowhere. */
  lemma SkippedNukeTally(e: DirEntry)
    requires IsSkipped(e)
    ensures Tally(NukeReport(e)).size == (if DeletedItem(Visit(e)) then Len(Visit(e)) else 0)
    ensures Tally(NukeReport(e)).completed == (if DeletedItem(Visit(e)) then 1 else 0)
    ensures Tally(NukeReport(e)).error == (if NukeFailure(Visit(e)) then 1 else 0)
  {
    Trichotomy(e);
    assert NukeReport(e) == [];
  }

  /** Any other entry is owed one message, which counts by the entry's class. */
  lemma OwedNukeTally(e: DirEntry)
    requires !IsSkipped(e)
    ensures Tally(NukeReport(e)).size == (if DeletedItem(Visit(e)) then Len(Visit(e)) else 0)
    ensures Tally(NukeReport(e)).completed == (if DeletedItem(Visit(e)) then 1 else 0)
    ensures Tally(NukeReport(e)).error == (if NukeFailure(Visit(e)) then 1 else 0)
  {
    TallySingle(NukeOwedMessage(e));
  }

  /** The single message a nuke worker owes an entry that is not skipped,
      and what it contributes. */
  function NukeOwedMessage(e: DirEntry): (m: Message)
    requires !IsSkipped(e)
    ensures NukeReport(e) == [m]
    ensures Contribution(m).size == (if DeletedItem(Visit(e)) then Len(Visit(e)) else 0)
    ensures Contribution(m).completed == (if DeletedItem(Visit(e)) then 1 else 0)
    ensures Contribution(m).error == (if NukeFailure(Visit(e)) then 1 else 0)
  {
    Trichotomy(e);
    if IsEligible(e) then
      match e.removal
      case Removed => Message(e.name, Ok(e.metadata.value.len))
      case RemoveFailed(reason) => Message(e.name, Err(AppError(reason)))
    else Message(e.name, Err(AppError(e.metadata.error)))
  }

  /** One nuke iteration over an entry adds what the entry's class adds. */
  lemma NukeStepAdds(run: Run, item: WalkItem)
    ensures NukeStep(run, item).run.data == AddAssign(run.data, NukeDelta(item))
  {
    NukeStepEffect(run, item);
    SumOfFields(AddAssign(run.data, NukeDelta(item)), run.data, NukeDelta(item), NukeStep(run, item).run.data);
  }

  /** One nuke iteration over an entry adds to the counters exactly what
      the report it sends tallies. */
  lemma NukeStepTally(run: Run, e: DirEntry)
    ensures NukeStep(run, Visit(e)).run.data == AddAssign(run.data, Tally(NukeReport(e)))
  {
    NukeStepAdds(run, Visit(e));
    NukeReportTally(e);
  }

  /** One more nuke iteration keeps the messages adding up to the counters. */
  lemma NukeTallyStep(run: Run, item: WalkItem)
    requires Tally(run.sent) == run.data
    ensures Tally(NukeStep(run, item).run.sent) == NukeStep(run, item).run.data
  {
    NukeStepEffect(run, item);
    if item.Visit? {
      NukeStepTally(run, item.entry);
      TallyAppend(run.sent, NukeReport(item.entry));
    }
  }

  /** A walk error in the front of a walk is a walk error of the walk, and
      a walk error of a walk is in its front or is its last item. */
  lemma WalkErrorSplit(items: seq<WalkItem>)
    requires |items| > 0
    ensures HasWalkError(items) <==> HasWalkError(items[..|items| - 1]) || items[|items| - 1].WalkError?
  {
    var front := items[..|items| - 1];
    if HasWalkError(front) {
      var k :| 0 <= k < |front| && front[k].WalkError?;
      assert items[k] == front[k];
    }
    if HasWalkError(items) {
      var k :| 0 <= k < |items| && items[k].WalkError?;
      if k < |front| {
        assert front[k] == items[k];
      }
    }
  }

  /** `nuke_dir`: the loop over the walk, one `NukeStep` per item until
      the first panic. */
  function NukeDir(items: seq<WalkItem>): (r: Exit)
    ensures |r.run.sent| <= |items|
    ensures r.run.data.completed + r.run.data.error == |r.run.sent|
    decreases |items|
  {
    if |items| == 0 then Returned(Run([], Zero))
    else
      var prev := NukeDir(items[..|items| - 1]);
      if prev.Panicked? then prev else NukeStep(prev.run, items[|items| - 1])
  }

  /** `nuke_dir` panics exactly when the walk yields a walk error. */
  lemma {:induction false} NukeDirPanics(items: seq<WalkItem>)
    ensures NukeDir(items).Panicked? <==> HasWalkError(items)
    decreases |items|
  {
    if |items| > 0 {
      var front, last := items[..|items| - 1], items[|items| - 1];
      NukeDirPanics(front);
      WalkErrorSplit(items);
      NukeStepEffect(NukeDir(front).run, last);
    }
  }

  /** The counters `nuke_dir` returns: the deleted files and their bytes,
      and the failed removals and unreadable entries. */
  lemma {:induction false} NukeDirCounts(items: seq<WalkItem>)
    ensures NukeDir(items).Returned? ==> NukeDir(items).run.data.completed == Count(items, DeletedItem)
    ensures NukeDir(items).Returned? ==> NukeDir(items).run.data.size == Bytes(items, DeletedItem)
    ensures NukeDir(items).Returned? ==> NukeDir(items).run.data.error == Count(items, NukeFailure)
    decreases |items|
  {
    if |items| > 0 {
      var front, last := items[..|items| - 1], items[|items| - 1];
      NukeDirCounts(front);
      NukeStepEffect(NukeDir(front).run, last);
    }
  }

  /** The messages `nuke_dir` sends when it returns: the reports owed, in
      walk order. */
  lemma {:induction false} NukeDirSent(items: seq<WalkItem>)
    ensures NukeDir(items).Returned? ==> NukeDir(items).run.sent == NukeReports(items)
    decreases |items|
  {
    if |items| > 0 {
      var front, last := items[..|items| - 1], items[|items| - 1];
      NukeDirSent(front);
      NukeStepEffect(NukeDir(front).run, last);
    }
  }

  /** Whether `nuke_dir` returns or panics, the messages it has sent add
      up to its counters. */
  lemma {:induction false} NukeDirTally(items: seq<WalkItem>)
    ensures Tally(NukeDir(items).run.sent) == NukeDir(items).run.data
    decreases |items|
  {
    if |items| == 0 {
      assert NukeDir(items) == Returned(Run([], Zero));
    } else {
      var front, last := items[..|items| - 1], items[|items| - 1];
      NukeDirTally(front);
      if NukeDir(front).Returned? {
        NukeTallyStep(NukeDir(front).run, last);
      }
    }
  }

  /** What `nuke_dir` does: it panics exactly when the walk yields a walk
      error. Otherwise it counts the deleted files and their bytes as
      completed and unreadable entries and failed removals as errors,
      sending exactly the reports owed. Whether it returns or panics, the
      messages it has sent add up to its counters. */
  lemma NukeDirSummary(items: seq<WalkItem>)
    ensures NukeDir(items).Panicked? <==> HasWalkError(items)
    ensures Tally(NukeDir(items).run.sent) == NukeDir(items).run.data
    ensures NukeDir(items).Returned? ==> NukeDir(items).run.data.completed == Count(items, DeletedItem)
    ensures NukeDir(items).Returned? ==> NukeDir(items).run.data.size == Bytes(items, DeletedItem)
    ensures NukeDir(items).Returned? ==> NukeDir(items).run.data.error == Count(items, NukeFailure)
    ensures NukeDir(items).Returned? ==> NukeDir(items).run.sent == NukeReports(items)
  {
    NukeDirPanics(items);
    NukeDirTally(items);
    NukeDirCounts(items);
    NukeDirSent(items);
  }

  /** The counters `nuke_dir` returns when no walk error occurs. */
  lemma NukeDirData(items: seq<WalkItem>)
    requires !HasWalkError(items)
    ensures NukeDir(items).run.data == From(Bytes(items, DeletedItem), Count(items, DeletedItem), Count(items, NukeFailure))
  {
    NukeDirSummary(items);
  }

  // ---------------------------------------------------------------------
  // Properties of the workers.

  /** Counting a predicate that is the disjoint union of two others. */
  lemma {:induction false} CountSplit(items: seq<WalkItem>, p: WalkItem -> bool, q: WalkItem -> bool, r: WalkItem -> bool)
    requires forall x :: p(x) <==> q(x) || r(x)
    requires forall x :: !(q(x) && r(x))
    ensures Count(items, p) == Count(items, q) + Count(items, r)
    decreases |items|
  {
    if |items| > 0 {
      CountSplit(items[..|items| - 1], p, q, r);
    }
  }

  /** In nuke mode each eligible entry is accounted exactly once: it is
      either deleted (completed) or not deleted (an error), never both. */
  lemma {:induction false} NukeAccountsEligibleOnce(items: seq<WalkItem>)
    ensures Count(items, EligibleItem) == Count(items, DeletedItem) + Count(items, UndeletedItem)
    ensures Count(items, NukeFailure) == Count(items, UnreadableItem) + Count(items, UndeletedItem)
  {
    CountSplit(items, EligibleItem, DeletedItem, UndeletedItem);
    forall x: WalkItem ensures !(UnreadableItem(x) && UndeletedItem(x)) {
      if x.Visit? {
        Trichotomy(x.entry);
      }
    }
    CountSplit(items, NukeFailure, UnreadableItem, UndeletedItem);
  }

  /** A skipped entry sends nothing and changes no counter: taking it out
      of the walk does not change what the scan worker sends or returns. */
  lemma {:induction false} ScanSkipInvisible(root: string, a: seq<WalkItem>, x: WalkItem, b: seq<WalkItem>)
    requires SkippedItem(x)
    ensures ScanDir(root, a + [x] + b) == ScanDir(root, a + b)
    decreases |b|
  {
    if |b| == 0 {
      assert a + [x] + b == a + [x] && a + b == a;
      ScanDirSnoc(root, a, x);
      assert ScanFile(x.entry) == Err(SubDirError());
    } else {
      var b', y := b[..|b| - 1], b[|b| - 1];
      assert a + [x] + b == (a + [x] + b') + [y];
      assert a + b == (a + b') + [y];
      ScanDirSnoc(root, a + [x] + b', y);
      ScanDirSnoc(root, a + b', y);
      ScanSkipInvisible(root, a, x, b');
    }
  }

  /** A walk error makes the nuke worker panic at the first one: what it
      has sent and counted by then is what the entries before it owe, and
      nothing after it is processed. */
  lemma {:induction false} NukeStopsAtFirstWalkError(items: seq<WalkItem>, k: nat)
    requires k < |items| && items[k].WalkError?
    requires !HasWalkError(items[..k])
    ensures NukeDir(items[..k]).Returned?
    ensures NukeDir(items) == Panicked(NukeDir(items[..k]).run)
    ensures NukeDir(items).run.sent == NukeReports(items[..k])
    decreases |items|
  {
    var front := items[..|items| - 1];
    if |items| == k + 1 {
      assert front == items[..k];
      NukeDirSummary(front);
    } else {
      assert front[..k] == items[..k] && front[k] == items[k];
      NukeStopsAtFirstWalkError(front, k);
    }
  }
}
