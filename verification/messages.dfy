/** The item type of the shared channel between the walkers and the
    aggregator, `(OsString, Result<u64, AppError>)`, and what a sequence of
    such items adds up to. */
module Messages {
  import opened Utils

  /** One outcome sent on the channel: the name it is reported under and
      either the byte length of a processed file or the error. */
  datatype Message = Message(name: string, outcome: Result<nat, AppError>)

  /** What one message contributes to a summary: a success adds its bytes
      and one completed item, a failure adds one failed item. */
  function Contribution(m: Message): (d: DirData)
    ensures d.completed + d.error == 1
    ensures d.completed == 1 <==> m.outcome.Ok?
    ensures d.size == if m.outcome.Ok? then m.outcome.value else 0
  {
    match m.outcome
    case Ok(n) => From(n, 1, 0)
    case Err(_) => From(0, 0, 1)
  }

  /** The summary a message sequence stands for, message by message. */
  function Tally(ms: seq<Message>): (d: DirData)
    ensures d.completed + d.error == |ms|
  {
    if |ms| == 0 then Zero else AddAssign(Tally(ms[..|ms| - 1]), Contribution(ms[|ms| - 1]))
  }

  /** Sending one more message adds its contribution. */
  lemma TallySnoc(ms: seq<Message>, m: Message)
    ensures Tally(ms + [m]) == AddAssign(Tally(ms), Contribution(m))
  {
    assert (ms + [m])[..|ms|] == ms;
  }

  /** A single message tallies to its contribution. */
  lemma TallySingle(m: Message)
    ensures Tally([m]) == Contribution(m)
  {
    assert [m][..0] == [];
  }

  /** Tallying a concatenation is combining the two tallies. */
  lemma {:induction false} TallyAppend(a: seq<Message>, b: seq<Message>)
    ensures Tally(a + b) == AddAssign(Tally(a), Tally(b))
    decreases |b|
  {
    if |b| == 0 {
      assert a + b == a;
    } else {
      var b', x := b[..|b| - 1], b[|b| - 1];
      var ab := a + b;
      assert ab[..|ab| - 1] == a + b';
      assert ab[|ab| - 1] == x;
      assert Tally(ab) == AddAssign(Tally(a + b'), Contribution(x));
      TallyAppend(a, b');
      AddAssignMonoid(Tally(a), Tally(b'), Contribution(x));
    }
  }

  /** Removing one copy of the same element from two equal multisets. */
  lemma MultisetCancel(a: seq<Message>, x: Message, b1: seq<Message>, b2: seq<Message>)
    requires multiset(a + [x]) == multiset(b1 + [x] + b2)
    ensures multiset(a) == multiset(b1 + b2)
  {
    calc {
      multiset(a);
      multiset(a + [x]) - multiset{x};
      multiset(b1 + [x] + b2) - multiset{x};
      multiset(b1) + multiset(b2);
      multiset(b1 + b2);
    }
  }

  /** The tally of a sequence with one message taken out of the middle. */
  lemma TallyMiddle(b1: seq<Message>, x: Message, b2: seq<Message>)
    ensures Tally(b1 + [x] + b2) == AddAssign(Tally(b1 + b2), Contribution(x))
  {
    var t1, t2, c := Tally(b1), Tally(b2), Contribution(x);
    TallyAppend(b1 + [x], b2);
    TallySnoc(b1, x);
    TallyAppend(b1, b2);
    assert Tally(b1 + [x] + b2) == AddAssign(AddAssign(t1, c), t2);
    SumOfFields(AddAssign(AddAssign(t1, c), t2), AddAssign(t1, c), t2, AddAssign(AddAssign(t1, t2), c));
  }

  /** The tally does not depend on the order of the messages: any
      rearrangement of the same messages adds up to the same summary. */
  lemma {:induction false} TallyPermutation(a: seq<Message>, b: seq<Message>)
    requires multiset(a) == multiset(b)
    ensures Tally(a) == Tally(b)
    decreases |a|
  {
    if |a| == 0 {
      assert |b| == |multiset(b)| == 0;
    } else {
      var a', x := a[..|a| - 1], a[|a| - 1];
      assert a == a' + [x];
      assert x in multiset(b);
      var i :| 0 <= i < |b| && b[i] == x;
      var b1, b2 := b[..i], b[i + 1..];
      assert b == b1 + [x] + b2;
      MultisetCancel(a', x, b1, b2);
      TallyPermutation(a', b1 + b2);
      TallyMiddle(b1, x, b2);
      assert Tally(a) == AddAssign(Tally(a'), Contribution(x));
    }
  }
}
