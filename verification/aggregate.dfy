/** The aggregator: the receive loop of `threading_template`, which drains
    the shared channel after every worker has been joined. Its state is the
    progress bar's position (the number of messages handled), the running
    byte total and the error count; the summary it returns is computed from
    these alone, independently of what the workers return. */
module Aggregate {
  import opened Utils
  import opened Messages

  /** An optional value. */
  datatype Option<T> = None | Some(value: T)

  /** The part of the progress bar the loop depends on: its position and
      its length, which a hidden bar does not have. */
  datatype Bar = Bar(position: nat, length: Option<nat>)

  /** The length `make_pb` gives a visible bar. */
  const VisibleLength: nat := 0x7ffffff

  /** `make_pb(quiet)`: a hidden bar without a length when quiet, otherwise
      a bar of length `VisibleLength`; either starts at position 0. */
  function MakeBar(quiet: bool): (b: Bar)
    ensures b.position == 0
    ensures b.length.Some? <==> !quiet
    ensures b.length.Some? ==> b.length.value == VisibleLength
  {
    if quiet then Bar(0, None) else Bar(0, Some(VisibleLength))
  }

  /** `pb.inc(delta)`: the position rises by `delta`, the length stays. */
  function Inc(b: Bar, delta: nat): (r: Bar)
    ensures r.position == b.position + delta
    ensures r.length == b.length
  {
    b.(position := b.position + delta)
  }

  /** `pb.finish_and_clear()`: a bar with a length moves its position to
      that length; a bar without one keeps its position. */
  function FinishAndClear(b: Bar): (r: Bar)
    ensures r.length == b.length
    ensures b.length.Some? ==> r.position == b.length.value
    ensures b.length.None? ==> r == b
  {
    match b.length
    case Some(n) => b.(position := n)
    case None => b
  }

  /** `pb.set_position(pos)`: the position becomes `pos`, the length stays. */
  function SetPosition(b: Bar, pos: nat): (r: Bar)
    ensures r.position == pos
    ensures r.length == b.length
  {
    b.(position := pos)
  }

  /** Restoring the position after finishing the bar leaves no trace of the
      finish, whether or not the bar has a length. */
  lemma RestoreAfterFinish(b: Bar, pos: nat)
    ensures SetPosition(FinishAndClear(b), pos) == SetPosition(b, pos)
  {
  }

  /** The loop's state: the bar, `total_size` and `error`. */
  datatype Aggregator = Aggregator(bar: Bar, totalSize: nat, error: nat)

  /** One iteration of the receive loop. Whatever the outcome, the
      position rises by exactly one: on an error the bar is finished (which
      moves a bar with a length to that length) and then put back where it was. A success
      adds its bytes; an error adds one to the error count. */
  function Receive(a: Aggregator, m: Message): (r: Aggregator)
    ensures r.bar.position == a.bar.position + 1
    ensures r.bar.length == a.bar.length
    ensures r.totalSize == a.totalSize + Contribution(m).size
    ensures r.error == a.error + Contribution(m).error
  {
    var bar := Inc(a.bar, 1);
    match m.outcome
    case Ok(n) => Aggregator(bar, a.totalSize + n, a.error)
    case Err(_) =>
      var tmpPos := bar.position;
      var cleared := FinishAndClear(bar);
      Aggregator(SetPosition(cleared, tmpPos), a.totalSize, a.error + 1)
  }

  /** The receive loop over the messages in arrival order: the position
      counts the messages, the total is the bytes of the successes and the
      error count is the number of failures. */
  function Drain(a: Aggregator, msgs: seq<Message>): (r: Aggregator)
    ensures r.bar.position == a.bar.position + |msgs|
    ensures r.bar.length == a.bar.length
    ensures r.totalSize == a.totalSize + Tally(msgs).size
    ensures r.error == a.error + Tally(msgs).error
    decreases |msgs|
  {
    if |msgs| == 0 then a
    else
      var front, m := msgs[..|msgs| - 1], msgs[|msgs| - 1];
      assert Tally(msgs) == AddAssign(Tally(front), Contribution(m));
      Receive(Drain(a, front), m)
  }

  /** The summary `threading_template` returns for the messages the channel
      delivers, on the bar `make_pb(quiet)` makes: `(total_size, final position
      - error, error)`. It is the tally of the messages, so the subtraction
      never goes below zero and the completed count is the number of
      successes. */
  function ThreadingTemplate(msgs: seq<Message>, quiet: bool): (d: DirData)
    ensures d == Tally(msgs)
    ensures d.completed + d.error == |msgs|
  {
    var final := Drain(Aggregator(MakeBar(quiet), 0, 0), msgs);
    From(final.totalSize, final.bar.position - final.error, final.error)
  }

  /** Arrival order does not matter: any rearrangement of the messages,
      in particular any interleaving of the workers' streams, gives the
      same summary. */
  lemma ThreadingTemplatePermutation(a: seq<Message>, b: seq<Message>, quiet: bool)
    requires multiset(a) == multiset(b)
    ensures ThreadingTemplate(a, quiet) == ThreadingTemplate(b, quiet)
  {
    TallyPermutation(a, b);
  }

  /** Whether the bar is hidden (no length) or visible (length
      `VisibleLength`) does not change the summary: the position is put
      back after every finish, so the length never shows in it. */
  lemma QuietIrrelevant(msgs: seq<Message>)
    ensures ThreadingTemplate(msgs, true) == ThreadingTemplate(msgs, false)
  {
  }

  /** A text that ends the line it writes. */
  predicate EndsLine(s: string)
  {
    |s| > 0 && s[|s| - 1] == '\n'
  }

  /** The text before the entry's name in a diagnostic. */
  const ErrorPrefix: string := "Error processing '"

  /** The text between the entry's name and the error in a diagnostic. */
  const NameEnd: string := "': "

  /** The line written to the error stream for a failed message: the
      fixed prefix, the entry's name, the separator, then the error as
      `Display` writes it, which ends the line. */
  function ErrorLine(name: string, e: AppError): (line: string)
    ensures |line| == |ErrorPrefix| + |name| + |NameEnd| + |Display(e)|
    ensures line[..|ErrorPrefix|] == ErrorPrefix
    ensures line[|ErrorPrefix|..|ErrorPrefix| + |name|] == name
    ensures line[|ErrorPrefix| + |name|..|line| - |Display(e)|] == NameEnd
    ensures line[|line| - |Display(e)|..] == Display(e)
    ensures EndsLine(line)
  {
    ErrorPrefix + name + NameEnd + Display(e)
  }

  /** For a given name, the diagnostic determines the error: the text
      between the separator and the final line break is the error's
      message, so two errors give the same line exactly when they are equal. */
  lemma ErrorLineInjective(name: string, a: AppError, b: AppError)
    ensures ErrorLine(name, a)[|ErrorPrefix| + |name| + |NameEnd|..|ErrorLine(name, a)| - 1] == a.msg
    ensures ErrorLine(name, a) == ErrorLine(name, b) <==> a == b
  {
    var la := ErrorLine(name, a);
    var k := |ErrorPrefix| + |name| + |NameEnd|;
    assert la[k..|la| - 1] == Display(a)[..|Display(a)| - 1];
    DisplayInjective(a, b);
    if la == ErrorLine(name, b) {
      assert Display(a) == la[k..] == Display(b);
    }
  }

  /** The failed messages, in arrival order. */
  function Failures(msgs: seq<Message>): (r: seq<Message>)
    ensures forall i :: 0 <= i < |r| ==> r[i].outcome.Err? && r[i] in msgs
    decreases |msgs|
  {
    if |msgs| == 0 then []
    else
      var front, m := msgs[..|msgs| - 1], msgs[|msgs| - 1];
      assert msgs == front + [m];
      Failures(front) + (if m.outcome.Err? then [m] else [])
  }

  /** The diagnostics the receive loop writes, in arrival order: the i-th
      line reports the i-th failed message under its name with its error,
      so there are as many as the error count, each ending its own line. */
  function Diagnostics(msgs: seq<Message>): (lines: seq<string>)
    ensures |lines| == |Failures(msgs)| == Tally(msgs).error
    ensures forall i :: 0 <= i < |lines| ==>
              lines[i] == ErrorLine(Failures(msgs)[i].name, Failures(msgs)[i].outcome.error)
    ensures forall i :: 0 <= i < |lines| ==> EndsLine(lines[i])
    decreases |msgs|
  {
    if |msgs| == 0 then []
    else
      var front, m := msgs[..|msgs| - 1], msgs[|msgs| - 1];
      assert Failures(msgs) == Failures(front) + (if m.outcome.Err? then [m] else []);
      assert Tally(msgs).error == Tally(front).error + Contribution(m).error;
      Diagnostics(front) + DiagnosticOf(m)
  }

  /** The diagnostic written for one message, if any. */
  function DiagnosticOf(m: Message): (lines: seq<string>)
    ensures |lines| == Contribution(m).error
    ensures forall i :: 0 <= i < |lines| ==> EndsLine(lines[i])
  {
    match m.outcome
    case Ok(_) => []
    case Err(e) => [ErrorLine(m.name, e)]
  }
}
