/** Root validation (`validate`): the configured paths, already resolved,
    are filtered down to the ones that exist, exact repeats are collapsed
    to their first occurrence, and the whole configuration is rejected as
    soon as a new path and a path already kept are nested.

    A path is its sequence of components, and `Path::starts_with` is
    prefix on that sequence. Whether a path exists is an input predicate (`present`). */
module Validate {
  import opened Utils

  /** A resolved path as its sequence of components. */
  type Path = seq<string>

  /** `p.starts_with(base)`: `base` is a component-wise prefix of `p`. */
  predicate StartsWith(p: Path, base: Path)
  {
    |base| <= |p| && p[..|base|] == base
  }

  /** Two paths are nested when one starts with the other. */
  predicate Nested(a: Path, b: Path)
  {
    StartsWith(a, b) || StartsWith(b, a)
  }

  /** The validation failure: the new path and the kept path it nests with. */
  datatype ConfigError = NestedDirectories(path: Path, kept: Path)

  /** The paths that exist, in input order, repeats included. */
  function Existing(list: seq<Path>, present: Path -> bool): (r: seq<Path>)
    ensures |r| <= |list|
    decreases |list|
  {
    if |list| == 0 then []
    else Existing(list[..|list| - 1], present) + (if present(list[|list| - 1]) then [list[|list| - 1]] else [])
  }

  /** The kept candidates are exactly the inputs that exist. */
  lemma {:induction false} ExistingMembers(list: seq<Path>, present: Path -> bool)
    ensures forall p :: p in Existing(list, present) <==> p in list && present(p)
    decreases |list|
  {
    if |list| > 0 {
      var front, last := list[..|list| - 1], list[|list| - 1];
      assert list == front + [last];
      ExistingMembers(front, present);
    }
  }

  /** No path occurs twice. */
  predicate Distinct(s: seq<Path>)
  {
    forall i, j :: 0 <= i < j < |s| ==> s[i] != s[j]
  }

  /** The first occurrence of each path, in order of first occurrence. */
  function FirstOccurrences(s: seq<Path>): (r: seq<Path>)
    ensures forall p :: p in r <==> p in s
    ensures Distinct(r)
    decreases |s|
  {
    if |s| == 0 then []
    else
      var front, last := s[..|s| - 1], s[|s| - 1];
      assert s == front + [last];
      var d := FirstOccurrences(front);
      if last in d then d else d + [last]
  }

  /** No two different paths of `s` are nested. */
  predicate NoNesting(s: seq<Path>)
  {
    forall a, b :: a in s && b in s && a != b ==> !Nested(a, b)
  }

  /** `kept` is the first path of `vec`, in order, that the loop over
      `vec` stops at for `path`: no earlier path equals or nests with
      `path`, and `kept` is different from `path` and nested with it. */
  predicate FirstNestedWith(vec: seq<Path>, path: Path, kept: Path)
  {
    exists j :: 0 <= j < |vec| && vec[j] == kept && kept != path && Nested(kept, path)
      && forall t :: 0 <= t < j ==> vec[t] != path && !Nested(vec[t], path)
  }

  /** The error `validate` reports for the existing paths `e`: the first
      existing path whose arrival nests with a path already kept, together
      with the first such kept path. Before it, the existing paths are
      pairwise not nested, so no earlier return happened. */
  predicate FirstConflict(e: seq<Path>, err: ConfigError)
  {
    exists i :: 0 <= i < |e| && e[i] == err.path && NoNesting(e[..i])
      && FirstNestedWith(FirstOccurrences(e[..i]), err.path, err.kept)
  }

  /** The existing paths before position `k` of the input are a prefix of
      all the existing paths, and an existing `list[k]` comes right after it. */
  lemma ExistingPrefix(list: seq<Path>, k: nat, present: Path -> bool)
    requires k < |list| && present(list[k])
    ensures |Existing(list[..k], present)| < |Existing(list, present)|
    ensures Existing(list, present)[..|Existing(list[..k], present)|] == Existing(list[..k], present)
    ensures Existing(list, present)[|Existing(list[..k], present)|] == list[k]
  {
    ExistingSnoc(list, k, present);
    assert list == list[..k + 1] + list[k + 1..];
    ExistingAppend(list[..k + 1], list[k + 1..], present);
    var e0 := Existing(list[..k], present);
    assert Existing(list, present) == e0 + [list[k]] + Existing(list[k + 1..], present);
  }

  /** At most one error fits: the reported error is determined by the
      existing paths alone. */
  lemma FirstConflictUnique(e: seq<Path>, a: ConfigError, b: ConfigError)
    requires FirstConflict(e, a) && FirstConflict(e, b)
    ensures a == b
  {
    var i1 :| 0 <= i1 < |e| && e[i1] == a.path && NoNesting(e[..i1])
      && FirstNestedWith(FirstOccurrences(e[..i1]), a.path, a.kept);
    var i2 :| 0 <= i2 < |e| && e[i2] == b.path && NoNesting(e[..i2])
      && FirstNestedWith(FirstOccurrences(e[..i2]), b.path, b.kept);
    if i1 < i2 {
      ConflictBeforeNesting(e, i1, i2, a);
    } else if i2 < i1 {
      ConflictBeforeNesting(e, i2, i1, b);
    } else {
      FirstNestedUnique(FirstOccurrences(e[..i1]), a.path, a.kept, b.kept);
    }
  }

  /** The loop over `vec` stops at one place only. */
  lemma FirstNestedUnique(vec: seq<Path>, path: Path, k1: Path, k2: Path)
    requires FirstNestedWith(vec, path, k1) && FirstNestedWith(vec, path, k2)
    ensures k1 == k2
  {
    var j1 :| 0 <= j1 < |vec| && vec[j1] == k1 && k1 != path && Nested(k1, path)
      && forall t :: 0 <= t < j1 ==> vec[t] != path && !Nested(vec[t], path);
    var j2 :| 0 <= j2 < |vec| && vec[j2] == k2 && k2 != path && Nested(k2, path)
      && forall t :: 0 <= t < j2 ==> vec[t] != path && !Nested(vec[t], path);
    assert j1 == j2;
  }

  /** A conflict at position `i` puts a nesting into every longer prefix. */
  lemma ConflictBeforeNesting(e: seq<Path>, i: nat, i': nat, a: ConfigError)
    requires i < i' <= |e| && e[i] == a.path
    requires FirstNestedWith(FirstOccurrences(e[..i]), a.path, a.kept)
    ensures !NoNesting(e[..i'])
  {
    var v := FirstOccurrences(e[..i]);
    var j :| 0 <= j < |v| && v[j] == a.kept && a.kept != a.path && Nested(a.kept, a.path)
      && forall t :: 0 <= t < j ==> v[t] != a.path && !Nested(v[t], a.path);
    assert a.kept in e[..i];
    var m :| 0 <= m < i && e[..i][m] == a.kept;
    assert e[..i'][m] == a.kept && e[..i'][i] == a.path;
  }

  /** A path of `vec` nested with `path`, with no earlier path of `vec`
      equal to or nested with `path`, is where the loop over `vec` stops. */
  lemma NestedAt(vec: seq<Path>, path: Path, j: nat)
    requires j < |vec| && vec[j] != path && Nested(vec[j], path)
    requires forall t :: 0 <= t < j ==> vec[t] != path && !Nested(vec[t], path)
    ensures FirstNestedWith(vec, path, vec[j])
  {
  }

  /** A position where the loop stops, with no nesting before it, is the
      reported conflict. */
  lemma ConflictAt(e: seq<Path>, i: nat, path: Path, kept: Path)
    requires i < |e| && e[i] == path && NoNesting(e[..i])
    requires FirstNestedWith(FirstOccurrences(e[..i]), path, kept)
    ensures FirstConflict(e, NestedDirectories(path, kept))
  {
  }

  /** The loop over `vec` stopped at `vec[j]` for the existing `list[k]`:
      that is the error reported for the existing paths. */
  lemma ReportConflict(list: seq<Path>, k: nat, present: Path -> bool, vec: seq<Path>, j: nat)
    requires k < |list| && present(list[k])
    requires vec == FirstOccurrences(Existing(list[..k], present)) && NoNesting(Existing(list[..k], present))
    requires j < |vec| && vec[j] != list[k] && Nested(vec[j], list[k])
    requires forall t :: 0 <= t < j ==> vec[t] != list[k] && !Nested(vec[t], list[k])
    ensures FirstConflict(Existing(list, present), NestedDirectories(list[k], vec[j]))
  {
    ExistingPrefix(list, k, present);
    NestedAt(vec, list[k], j);
    ConflictAt(Existing(list, present), |Existing(list[..k], present)|, list[k], vec[j]);
  }

  /** Filtering one more path. */
  lemma ExistingSnoc(list: seq<Path>, k: nat, present: Path -> bool)
    requires k < |list|
    ensures Existing(list[..k + 1], present)
         == Existing(list[..k], present) + (if present(list[k]) then [list[k]] else [])
  {
    assert list[..k + 1][..k] == list[..k];
  }

  /** De-duplicating one more path. */
  lemma FirstOccurrencesSnoc(s: seq<Path>, x: Path)
    ensures FirstOccurrences(s + [x])
         == if x in FirstOccurrences(s) then FirstOccurrences(s) else FirstOccurrences(s) + [x]
  {
    assert (s + [x])[..|s|] == s;
  }

  /** A path that is neither a kept path nor nested with one is kept, and
      the kept paths stay pairwise not nested. */
  lemma KeepNew(e: seq<Path>, vec: seq<Path>, line: Path)
    requires vec == FirstOccurrences(e) && NoNesting(e)
    requires forall t :: 0 <= t < |vec| ==> vec[t] != line && !Nested(vec[t], line)
    ensures FirstOccurrences(e + [line]) == vec + [line]
    ensures NoNesting(e + [line])
  {
    FirstOccurrencesSnoc(e, line);
    forall a, b | a in e + [line] && b in e + [line] && a != b
      ensures !Nested(a, b)
    {
      if a == line {
        var t :| 0 <= t < |vec| && vec[t] == b;
      } else if b == line {
        var t :| 0 <= t < |vec| && vec[t] == a;
      }
    }
  }

  /** A repeat of a kept path changes nothing. */
  lemma KeepDuplicate(e: seq<Path>, vec: seq<Path>, line: Path)
    requires vec == FirstOccurrences(e) && NoNesting(e)
    requires line in vec
    ensures FirstOccurrences(e + [line]) == vec
    ensures NoNesting(e + [line])
  {
    FirstOccurrencesSnoc(e, line);
    assert forall p :: p in e + [line] <==> p in e;
  }

  /** A new existing path nested with a different kept path is a nesting
      between two different existing inputs. */
  lemma RejectNested(list: seq<Path>, k: nat, present: Path -> bool, kept: Path)
    requires k < |list| && present(list[k])
    requires kept in Existing(list[..k], present)
    requires kept != list[k] && Nested(kept, list[k])
    ensures kept in list && present(kept)
    ensures !NoNesting(Existing(list, present))
  {
    ExistingMembers(list[..k], present);
    ExistingMembers(list, present);
    assert kept in list[..k];
    var e := Existing(list, present);
    assert list[k] in e && kept in e;
  }

  /** `validate(list, quiet)` over resolved paths. It succeeds exactly when
      no two different existing paths are nested, and then returns the
      existing paths in order of first occurrence without repeats: pairwise
      different, pairwise not nested, and each an existing input. When it
      fails, it names two different existing inputs that are nested. */
  method Validate(list: seq<Path>, present: Path -> bool) returns (r: Result<seq<Path>, ConfigError>)
    ensures r.Ok? <==> NoNesting(Existing(list, present))
    ensures r.Ok? ==> r.value == FirstOccurrences(Existing(list, present))
    ensures r.Ok? ==> Distinct(r.value) && NoNesting(r.value)
    ensures r.Ok? ==> forall p :: p in r.value <==> p in list && present(p)
    ensures r.Err? ==> r.error.path != r.error.kept && Nested(r.error.path, r.error.kept)
    ensures r.Err? ==> r.error.path in list && present(r.error.path)
    ensures r.Err? ==> r.error.kept in list && present(r.error.kept)
    ensures r.Err? ==> FirstConflict(Existing(list, present), r.error)
  {
    var vec: seq<Path> := [];
    var k := 0;
    while k < |list|
      invariant 0 <= k <= |list|
      invariant vec == FirstOccurrences(Existing(list[..k], present))
      invariant NoNesting(Existing(list[..k], present))
    {
      var line := list[k];
      ExistingSnoc(list, k, present);
      if !present(line) {
        assert Existing(list[..k + 1], present) == Existing(list[..k], present) + [];
        assert Existing(list[..k], present) + [] == Existing(list[..k], present);
        k := k + 1;
        continue;
      }
      var flag := true;
      var j := 0;
      while j < |vec|
        invariant 0 <= j <= |vec|
        invariant forall t :: 0 <= t < j ==> vec[t] != line && !Nested(vec[t], line)
        invariant flag
      {
        if vec[j] == line {
          flag := false;
          break;
        } else if StartsWith(vec[j], line) || StartsWith(line, vec[j]) {
          RejectNested(list, k, present, vec[j]);
          ReportConflict(list, k, present, vec, j);
          return Err(NestedDirectories(line, vec[j]));
        }
        j := j + 1;
      }
      if flag {
        KeepNew(Existing(list[..k], present), vec, line);
        vec := vec + [line];
      } else {
        KeepDuplicate(Existing(list[..k], present), vec, line);
      }
      k := k + 1;
    }
    assert list[..k] == list;
    ExistingMembers(list, present);
    return Ok(vec);
  }

  // ---------------------------------------------------------------------
  // What makes validation fail, and what does not.

  /** Filtering a concatenation is concatenating the filtered parts. */
  lemma {:induction false} ExistingAppend(a: seq<Path>, b: seq<Path>, present: Path -> bool)
    ensures Existing(a + b, present) == Existing(a, present) + Existing(b, present)
    decreases |b|
  {
    if |b| == 0 {
      assert a + b == a;
    } else {
      var b', y := b[..|b| - 1], b[|b| - 1];
      var tail := if present(y) then [y] else [];
      var ab := a + b;
      assert ab[..|ab| - 1] == a + b' && ab[|ab| - 1] == y;
      assert Existing(ab, present) == Existing(a + b', present) + tail;
      assert Existing(b, present) == Existing(b', present) + tail;
      ExistingAppend(a, b', present);
      assert Existing(a + b', present) + tail == Existing(a, present) + (Existing(b', present) + tail);
    }
  }

  /** A path that does not exist is dropped without a trace: the existing
      paths, and so the outcome of `Validate`, are as if it were absent. */
  lemma MissingPathIgnored(a: seq<Path>, p: Path, b: seq<Path>, present: Path -> bool)
    requires !present(p)
    ensures Existing(a + [p] + b, present) == Existing(a + b, present)
  {
    ExistingAppend(a + [p], b, present);
    ExistingAppend(a, [p], present);
    ExistingAppend(a, b, present);
    assert [p][..0] == [];
  }

  /** Inserting a repeat of an earlier path changes nothing a later first
      occurrence could see. */
  lemma {:induction false} FirstOccurrencesDrop(s: seq<Path>, x: Path, t: seq<Path>)
    requires x in s
    ensures FirstOccurrences(s + [x] + t) == FirstOccurrences(s + t)
    decreases |t|
  {
    if |t| == 0 {
      assert s + [x] + t == s + [x] && s + t == s;
      FirstOccurrencesSnoc(s, x);
    } else {
      var t', y := t[..|t| - 1], t[|t| - 1];
      assert s + [x] + t == (s + [x] + t') + [y];
      assert s + t == (s + t') + [y];
      FirstOccurrencesSnoc(s + [x] + t', y);
      FirstOccurrencesSnoc(s + t', y);
      FirstOccurrencesDrop(s, x, t');
    }
  }

  /** The repeat itself never conflicts: a path already kept is met in
      the loop over `vec` before any path nested with it, since no kept
      path is nested with a different one. */
  lemma RepeatNoConflict(x: seq<Path>, p: Path, kept: Path)
    requires p in x
    ensures NoNesting(x) ==> !FirstNestedWith(FirstOccurrences(x), p, kept)
  {
    var v := FirstOccurrences(x);
    if NoNesting(x) {
      forall j | 0 <= j < |v|
        ensures !(v[j] != p && Nested(v[j], p))
      {
        assert v[j] in x;
      }
    }
  }

  /** The prefixes of the sequence with the repeat, past the repeat, are
      the prefixes without it plus the repeat. */
  lemma RepeatPrefix(x: seq<Path>, p: Path, y: seq<Path>, n: nat)
    requires n <= |y|
    ensures (x + [p] + y)[..|x| + 1 + n] == x + [p] + y[..n]
    ensures (x + y)[..|x| + n] == x + y[..n]
  {
  }

  /** Past the repeat, the loop sees the same kept paths and the same
      nesting with and without the repeat. */
  lemma RepeatSameState(x: seq<Path>, p: Path, y: seq<Path>, n: nat)
    requires p in x && n <= |y|
    ensures FirstOccurrences((x + [p] + y)[..|x| + 1 + n]) == FirstOccurrences((x + y)[..|x| + n])
    ensures NoNesting((x + [p] + y)[..|x| + 1 + n]) <==> NoNesting((x + y)[..|x| + n])
  {
    RepeatPrefix(x, p, y, n);
    FirstOccurrencesDrop(x, p, y[..n]);
    assert forall q :: q in x + [p] + y[..n] <==> q in x + y[..n];
  }

  /** A conflict with the repeat is a conflict, one position earlier,
      without it. */
  lemma RepeatConflictForward(x: seq<Path>, p: Path, y: seq<Path>, err: ConfigError, i: nat)
    requires p in x
    requires i < |x + [p] + y| && (x + [p] + y)[i] == err.path && NoNesting((x + [p] + y)[..i])
    requires FirstNestedWith(FirstOccurrences((x + [p] + y)[..i]), err.path, err.kept)
    ensures FirstConflict(x + y, err)
  {
    var e1, e2 := x + [p] + y, x + y;
    assert e1[..|x|] == x && e1[|x|] == p;
    RepeatNoConflict(x, p, err.kept);
    if i < |x| {
      assert e1[..i] == e2[..i] && e1[i] == e2[i];
      assert 0 <= i < |e2| && e2[i] == err.path && NoNesting(e2[..i])
        && FirstNestedWith(FirstOccurrences(e2[..i]), err.path, err.kept);
    } else {
      var n := i - |x| - 1;
      RepeatSameState(x, p, y, n);
      assert e2[|x| + n] == e1[i];
      assert 0 <= |x| + n < |e2| && e2[|x| + n] == err.path && NoNesting(e2[..|x| + n])
        && FirstNestedWith(FirstOccurrences(e2[..|x| + n]), err.path, err.kept);
    }
  }

  /** A conflict without the repeat is a conflict, one position later,
      with it. */
  lemma RepeatConflictBackward(x: seq<Path>, p: Path, y: seq<Path>, err: ConfigError, i: nat)
    requires p in x
    requires i < |x + y| && (x + y)[i] == err.path && NoNesting((x + y)[..i])
    requires FirstNestedWith(FirstOccurrences((x + y)[..i]), err.path, err.kept)
    ensures FirstConflict(x + [p] + y, err)
  {
    var e1, e2 := x + [p] + y, x + y;
    if i < |x| {
      assert e1[..i] == e2[..i] && e1[i] == e2[i];
      assert 0 <= i < |e1| && e1[i] == err.path && NoNesting(e1[..i])
        && FirstNestedWith(FirstOccurrences(e1[..i]), err.path, err.kept);
    } else {
      var n := i - |x|;
      RepeatSameState(x, p, y, n);
      assert e1[i + 1] == e2[i];
      assert 0 <= i + 1 < |e1| && e1[i + 1] == err.path && NoNesting(e1[..i + 1])
        && FirstNestedWith(FirstOccurrences(e1[..i + 1]), err.path, err.kept);
    }
  }

  /** A repeat of a path that came earlier changes nothing about which
      error, if any, is reported. */
  lemma RepeatSameConflict(x: seq<Path>, p: Path, y: seq<Path>, err: ConfigError)
    requires p in x
    ensures FirstConflict(x + [p] + y, err) <==> FirstConflict(x + y, err)
  {
    var e1, e2 := x + [p] + y, x + y;
    if FirstConflict(e1, err) {
      var i :| 0 <= i < |e1| && e1[i] == err.path && NoNesting(e1[..i])
        && FirstNestedWith(FirstOccurrences(e1[..i]), err.path, err.kept);
      RepeatConflictForward(x, p, y, err, i);
    }
    if FirstConflict(e2, err) {
      var i :| 0 <= i < |e2| && e2[i] == err.path && NoNesting(e2[..i])
        && FirstNestedWith(FirstOccurrences(e2[..i]), err.path, err.kept);
      RepeatConflictBackward(x, p, y, err, i);
    }
  }

  /** A repeat of an earlier path never causes a failure by itself and is
      collapsed: whether validation succeeds, and what it returns, is as if
      the repeat were absent. */
  lemma DuplicateIgnored(a: seq<Path>, p: Path, b: seq<Path>, present: Path -> bool)
    requires p in a
    ensures NoNesting(Existing(a + [p] + b, present)) <==> NoNesting(Existing(a + b, present))
    ensures FirstOccurrences(Existing(a + [p] + b, present)) == FirstOccurrences(Existing(a + b, present))
    ensures forall err :: FirstConflict(Existing(a + [p] + b, present), err) <==> FirstConflict(Existing(a + b, present), err)
  {
    if present(p) {
      ExistingAppend(a + [p], b, present);
      ExistingAppend(a, [p], present);
      ExistingAppend(a, b, present);
      assert [p][..0] == [];
      assert Existing([p], present) == [p];
      ExistingMembers(a, present);
      FirstOccurrencesDrop(Existing(a, present), p, Existing(b, present));
      var e1, e2 := Existing(a + [p] + b, present), Existing(a + b, present);
      ExistingMembers(a + [p] + b, present);
      ExistingMembers(a + b, present);
      assert forall q :: q in e1 <==> q in e2;
      forall err: ConfigError
        ensures FirstConflict(e1, err) <==> FirstConflict(e2, err)
      {
        RepeatSameConflict(Existing(a, present), p, Existing(b, present), err);
      }
    } else {
      MissingPathIgnored(a, p, b, present);
    }
  }

  /** `/tmp/a` and `/tmp/a/sub` are nested, so they cannot be validated together. */
  lemma NestedRootsRejected()
    ensures !NoNesting(Existing([["/", "tmp", "a"], ["/", "tmp", "a", "sub"]], (_: Path) => true))
  {
    var e := Existing([["/", "tmp", "a"], ["/", "tmp", "a", "sub"]], (_: Path) => true);
    var a, sub := ["/", "tmp", "a"], ["/", "tmp", "a", "sub"];
    ExistingMembers([a, sub], (_: Path) => true);
    assert a in e && sub in e;
    assert sub[..|a|] == a;
  }

  /** Nesting is component-wise: `/tmp/ab` is not inside `/tmp/a`. */
  lemma SiblingRootsAccepted()
    ensures NoNesting(Existing([["/", "tmp", "a"], ["/", "tmp", "ab"]], (_: Path) => true))
  {
    var a, ab := ["/", "tmp", "a"], ["/", "tmp", "ab"];
    var e := Existing([a, ab], (_: Path) => true);
    ExistingMembers([a, ab], (_: Path) => true);
    assert ab[..|a|] != a by {
      assert ab[..|a|][2] == "ab" != "a";
    }
    assert forall q :: q in e <==> q == a || q == ab;
  }
}
