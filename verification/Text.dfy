/** Searching and cutting strings, as `std::string` does. */
module Text {

  datatype Option<T> = None | Some(value: T)

  predicate At(s: string, p: string, i: int) {
    0 <= i <= |s| - |p| && s[i..i + |p|] == p
  }

  ghost predicate Contains(s: string, p: string) {
    exists i :: At(s, p, i)
  }

  predicate Splits(s: string, before: string, p: string, after: string) {
    s == before + p + after
  }

  lemma ContainsMeansSplits(s: string, p: string)
    ensures Contains(s, p) <==> exists before, after :: Splits(s, before, p, after)
  {
    if i :| At(s, p, i) {
      assert Splits(s, s[..i], p, s[i + |p|..]);
    }
    if before, after :| Splits(s, before, p, after) {
      assert At(s, p, |before|);
    }
  }

  /** `s.find(p)`, with -1 for npos. */
  function Find(s: string, p: string): (r: int)
    ensures r == -1 <==> !Contains(s, p)
    ensures r != -1 ==> At(s, p, r) && forall j :: 0 <= j < r ==> !At(s, p, j)
  {
    FindFrom(s, p, 0)
  }

  function FindFrom(s: string, p: string, i: nat): (r: int)
    ensures r == -1 ==> forall j :: i <= j ==> !At(s, p, j)
    ensures r != -1 ==> i <= r && At(s, p, r) && forall j :: i <= j < r ==> !At(s, p, j)
    decreases |s| - i
  {
    if i + |p| > |s| then -1 else if At(s, p, i) then i else FindFrom(s, p, i + 1)
  }

  /** `s.substr(pos, count)` with arguments computed as `int` and converted to `size_t`: a negative count is huge,
      and a position beyond the end throws. */
  function Substr(s: string, pos: int, count: int): (r: Option<string>)
    ensures r.None? <==> pos < 0 || pos > |s|
    ensures r.Some? ==> r.value <= s[pos..] && |r.value| == if 0 <= count < |s| - pos then count else |s| - pos
  {
    if pos < 0 || pos > |s| then None
    else if count < 0 || count > |s| - pos then Some(s[pos..])
    else Some(s[pos..pos + count])
  }

  function Rest(s: string, pos: int): Option<string> {
    Substr(s, pos, -1)
  }

  lemma FindIs(s: string, p: string, k: nat)
    requires At(s, p, k) && forall j :: 0 <= j < k ==> !At(s, p, j)
    ensures Find(s, p) == k
  {
    assert Contains(s, p);
  }

  /** One of the first three characters of `tag` is not where it should be if `tag` started at `k` in `lit`. */
  predicate Blocked(lit: string, tag: string, k: nat)
    requires k < |lit| && |tag| >= 3
  {
    || lit[k] != tag[0]
    || (k + 1 < |lit| && lit[k + 1] != tag[1])
    || (k + 2 < |lit| && lit[k + 2] != tag[2])
  }

  /** `tag` cannot start anywhere in `lit`, whatever follows. */
  predicate Foreign(lit: string, tag: string) {
    |tag| >= 3 && forall k :: 0 <= k < |lit| ==> Blocked(lit, tag, k)
  }

  lemma AfterForeign(lit: string, rest: string, tag: string, i: int)
    requires Foreign(lit, tag)
    ensures At(lit + rest, tag, i) <==> i >= |lit| && At(rest, tag, i - |lit|)
  {
    var s := lit + rest;
    if 0 <= i <= |s| - |tag| {
      var here := s[i..i + |tag|];
      if i >= |lit| {
        assert here == rest[i - |lit|..i - |lit| + |tag|];
      } else {
        assert Blocked(lit, tag, i);
        assert here[0] == lit[i] && (i + 1 < |lit| ==> here[1] == lit[i + 1]) && (i + 2 < |lit| ==> here[2] == lit[i + 2]);
      }
    }
  }

  /** No occurrence of `tag` reaches across the end of a field into `next`, if `next` starts with a character that
      `tag` has nowhere but perhaps in front. */
  lemma NotAcross(field: string, next: string, tag: string, i: int)
    requires next != [] && tag != [] && next[0] !in tag[1..]
    ensures At(field + next, tag, i) <==> At(field, tag, i) || (i >= |field| && At(next, tag, i - |field|))
  {
    var s := field + next;
    if 0 <= i <= |s| - |tag| {
      var here := s[i..i + |tag|];
      if i + |tag| <= |field| {
        assert here == field[i..i + |tag|];
      } else if i >= |field| {
        assert here == next[i - |field|..i - |field| + |tag|];
      } else {
        var j := |field| - i;
        assert here[j] == next[0] && tag[1..][j - 1] == tag[j];
      }
    }
  }

  lemma ContainsAfterForeign(lit: string, rest: string, tag: string)
    requires Foreign(lit, tag)
    ensures Contains(lit + rest, tag) <==> Contains(rest, tag)
  {
    if i :| At(lit + rest, tag, i) {
      AfterForeign(lit, rest, tag, i);
    }
    if i :| At(rest, tag, i) {
      AfterForeign(lit, rest, tag, i + |lit|);
    }
  }

  lemma ContainsNotAcross(field: string, next: string, tag: string)
    requires next != [] && tag != [] && next[0] !in tag[1..]
    ensures Contains(field + next, tag) <==> Contains(field, tag) || Contains(next, tag)
  {
    if i :| At(field + next, tag, i) {
      NotAcross(field, next, tag, i);
    }
    if i :| At(field, tag, i) {
      NotAcross(field, next, tag, i);
    }
    if i :| At(next, tag, i) {
      NotAcross(field, next, tag, i + |field|);
    }
  }

  /** In a message of two fields, a tag that is foreign to both labels occurs exactly when it occurs in a field: none
      arises across a boundary. */
  lemma TwoFields(lit1: string, f1: string, lit2: string, f2: string, tag: string)
    requires Foreign(lit1, tag) && Foreign(lit2, tag) && lit2 != [] && lit2[0] !in tag[1..]
    ensures Contains(lit1 + f1 + lit2 + f2, tag) <==> Contains(f1, tag) || Contains(f2, tag)
  {
    assert lit1 + f1 + lit2 + f2 == lit1 + (f1 + (lit2 + f2));
    ContainsAfterForeign(lit1, f1 + (lit2 + f2), tag);
    ContainsNotAcross(f1, lit2 + f2, tag);
    ContainsAfterForeign(lit2, f2, tag);
  }

  /** Where the second label occurs: in the first field, or from its own place on. */
  lemma LabelOccursAt(lit1: string, f1: string, lit2: string, f2: string, i: int)
    requires Foreign(lit1, lit2) && lit2[0] !in lit2[1..]
    ensures At(lit1 + f1 + lit2 + f2, lit2, i) <==>
      i >= |lit1| &&
      (At(f1, lit2, i - |lit1|) || (i - |lit1| >= |f1| && At(lit2 + f2, lit2, i - |lit1| - |f1|)))
  {
    var tail := f1 + (lit2 + f2);
    assert lit1 + f1 + lit2 + f2 == lit1 + tail;
    AfterForeign(lit1, tail, lit2, i);
    NotAcross(f1, lit2 + f2, lit2, i - |lit1|);
  }

  lemma LabelInPlace(lit1: string, f1: string, lit2: string, f2: string)
    requires Foreign(lit1, lit2) && lit2[0] !in lit2[1..]
    ensures At(lit1 + f1 + lit2 + f2, lit2, |lit1| + |f1|)
  {
    assert At(lit2 + f2, lit2, 0);
    LabelOccursAt(lit1, f1, lit2, f2, |lit1| + |f1|);
  }

  lemma LabelInRange(lit1: string, f1: string, lit2: string, f2: string)
    requires Foreign(lit1, lit2) && lit2[0] !in lit2[1..]
    ensures |lit1| <= Find(lit1 + f1 + lit2 + f2, lit2) <= |lit1| + |f1|
  {
    LabelInPlace(lit1, f1, lit2, f2);
    LabelOccursAt(lit1, f1, lit2, f2, Find(lit1 + f1 + lit2 + f2, lit2));
  }

  lemma LabelFoundEarly(lit1: string, f1: string, lit2: string, f2: string, i: int)
    requires Foreign(lit1, lit2) && lit2[0] !in lit2[1..] && At(f1, lit2, i)
    ensures Find(lit1 + f1 + lit2 + f2, lit2) < |lit1| + |f1|
  {
    LabelInRange(lit1, f1, lit2, f2);
    LabelOccursAt(lit1, f1, lit2, f2, |lit1| + i);
  }

  lemma LabelFoundInField(lit1: string, f1: string, lit2: string, f2: string)
    requires Foreign(lit1, lit2) && lit2[0] !in lit2[1..]
    requires Find(lit1 + f1 + lit2 + f2, lit2) != |lit1| + |f1|
    ensures Contains(f1, lit2)
  {
    LabelInRange(lit1, f1, lit2, f2);
    LabelOccursAt(lit1, f1, lit2, f2, Find(lit1 + f1 + lit2 + f2, lit2));
  }

  /** The second label is found at its own place exactly when the first field does not contain it, and otherwise
      earlier, but never within the first label. */
  lemma SecondLabel(lit1: string, f1: string, lit2: string, f2: string)
    requires Foreign(lit1, lit2) && lit2[0] !in lit2[1..]
    ensures var at := Find(lit1 + f1 + lit2 + f2, lit2);
      && |lit1| <= at <= |lit1| + |f1|
      && (at == |lit1| + |f1| <==> !Contains(f1, lit2))
  {
    LabelInRange(lit1, f1, lit2, f2);
    if i :| At(f1, lit2, i) {
      LabelFoundEarly(lit1, f1, lit2, f2, i);
    } else if Find(lit1 + f1 + lit2 + f2, lit2) != |lit1| + |f1| {
      LabelFoundInField(lit1, f1, lit2, f2);
    }
  }
}
