/** Shared value types of the cleaner: the per-root summary `DirData`, the
    error type `AppError` with its subdirectory sentinel, and a `Result`
    standing in for Rust's `Result`. */
module Utils {

  /** Rust's `Result`: either a value or an error. */
  datatype Result<+T, +E> = Ok(value: T) | Err(error: E)

  /** Bytes processed, items that succeeded and items that failed. The
      source stores these as `u64`; the model uses unbounded naturals. */
  datatype DirData = DirData(size: nat, completed: nat, error: nat)

  /** `DirData::from`: stores its three arguments unchanged. */
  function From(size: nat, completed: nat, error: nat): (d: DirData)
    ensures d.size == size && d.completed == completed && d.error == error
  {
    DirData(size, completed, error)
  }

  /** The empty summary, the identity of `AddAssign`. */
  const Zero: DirData := DirData(0, 0, 0)

  /** `acc += other`: the value `acc` holds afterwards. */
  function AddAssign(acc: DirData, other: DirData): (r: DirData)
    ensures r.size == acc.size + other.size
    ensures r.completed == acc.completed + other.completed
    ensures r.error == acc.error + other.error
  {
    DirData(acc.size + other.size, acc.completed + other.completed, acc.error + other.error)
  }

  /** `+=` works field by field, so summaries form a commutative monoid
      with `Zero` as identity: the order in which per-root summaries are
      combined does not matter. */
  lemma AddAssignMonoid(a: DirData, b: DirData, c: DirData)
    ensures AddAssign(a, b) == AddAssign(b, a)
    ensures AddAssign(AddAssign(a, b), c) == AddAssign(a, AddAssign(b, c))
    ensures AddAssign(a, Zero) == a && AddAssign(Zero, a) == a
  {
  }

  /** A summary whose fields are the field-wise sums of two others is their `+=`. */
  lemma SumOfFields(r: DirData, a: DirData, b: DirData, c: DirData)
    requires r == AddAssign(a, b)
    requires c.size == a.size + b.size && c.completed == a.completed + b.completed && c.error == a.error + b.error
    ensures r == c
  {
  }

  /** The application's error: a message text. Equality is the derived
      one, so two errors are equal exactly when their texts are. */
  datatype AppError = AppError(msg: string)

  /** Text of the sentinel raised for entries that are not plain files. */
  const SubDirText: string := "is subdirectory or symlink"

  /** The sentinel error for directories and symbolic links. */
  function SubDirError(): (e: AppError)
    ensures e.msg == SubDirText
    ensures forall other: AppError :: other == e <==> other.msg == SubDirText
  {
    AppError(SubDirText)
  }

  /** Derived equality on `AppError` compares the texts. */
  lemma AppErrorEquality(a: AppError, b: AppError)
    ensures a == b <==> a.msg == b.msg
  {
  }

  /** `Display for AppError`: the message followed by a line break. */
  function Display(e: AppError): (s: string)
    ensures |s| == |e.msg| + 1
    ensures s[..|e.msg|] == e.msg
    ensures s[|e.msg|] == '\n'
  {
    e.msg + "\n"
  }

  /** Rendering loses nothing: two errors print the same exactly when they
      are equal, and the text before the final line break is the message. */
  lemma DisplayInjective(a: AppError, b: AppError)
    ensures Display(a) == Display(b) <==> a == b
    ensures Display(a)[..|Display(a)| - 1] == a.msg
  {
    if Display(a) == Display(b) {
      assert |a.msg| == |b.msg|;
      assert a.msg == Display(a)[..|a.msg|] == Display(b)[..|b.msg|] == b.msg;
    }
  }
}
