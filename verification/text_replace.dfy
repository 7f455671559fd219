/**
 * Literal (non-regex) replace-all on strings, as performed by Java's
 * String.replace(CharSequence, CharSequence): the string is scanned from left
 * to right, each occurrence of the token found by the scan is replaced, the
 * scan resumes after the replaced occurrence (occurrences never overlap) and
 * the inserted replacement text is never scanned again.  An empty token
 * matches at every position, before the first and after the last character.
 */
module TextReplace {

  /** `token` occurs in `s` starting at index `i`. */
  predicate OccursAt(s: string, token: string, i: int)
  {
    0 <= i && i + |token| <= |s| && s[i..i + |token|] == token
  }

  /** `token` occurs somewhere in `s`. */
  predicate Contains(s: string, token: string)
  {
    exists i | 0 <= i <= |s| :: OccursAt(s, token, i)
  }

  /** Every character of the result comes from `s` or from `rep`. */
  function ReplaceAll(s: string, token: string, rep: string): (r: string)
    ensures forall c :: c in r ==> c in s || c in rep
    decreases |s|
  {
    if |token| == 0 then
      if s == [] then rep else rep + [s[0]] + ReplaceAll(s[1..], token, rep)
    else if OccursAt(s, token, 0) then
      rep + ReplaceAll(s[|token|..], token, rep)
    else if s == [] then
      []
    else
      [s[0]] + ReplaceAll(s[1..], token, rep)
  }

  /** The number of occurrences the left-to-right scan of ReplaceAll replaces. */
  function MatchCount(s: string, token: string): nat
    decreases |s|
  {
    if |token| == 0 then
      |s| + 1
    else if OccursAt(s, token, 0) then
      1 + MatchCount(s[|token|..], token)
    else if s == [] then
      0
    else
      MatchCount(s[1..], token)
  }

  /** An occurrence in `s[1..]` is an occurrence in `s` one position further on. */
  lemma OccursAtTail(s: string, token: string, i: nat)
    requires |s| > 0
    ensures OccursAt(s[1..], token, i) <==> OccursAt(s, token, i + 1)
  {
    if 0 <= i && i + |token| <= |s| - 1 {
      assert s[1..][i..i + |token|] == s[i + 1..i + 1 + |token|];
    }
  }

  /** An occurrence in `s[k..]` is an occurrence in `s` k positions further on. */
  lemma OccursAtSuffix(s: string, token: string, k: nat, i: nat)
    requires k <= |s|
    ensures OccursAt(s[k..], token, i) <==> OccursAt(s, token, i + k)
  {
    if 0 <= i && i + |token| <= |s| - k {
      assert s[k..][i..i + |token|] == s[i + k..i + k + |token|];
    }
  }

  lemma MulSucc(k: int, d: int)
    ensures (1 + k) * d == d + k * d
  {
  }

  /** A token that does not occur is left alone: the result is the input. */
  lemma {:induction false} ReplaceAbsent(s: string, token: string, rep: string)
    requires |token| > 0 && !Contains(s, token)
    ensures ReplaceAll(s, token, rep) == s
    decreases |s|
  {
    assert !OccursAt(s, token, 0);
    if s != [] {
      forall i: nat ensures !OccursAt(s[1..], token, i) {
        OccursAtTail(s, token, i);
      }
      ReplaceAbsent(s[1..], token, rep);
    }
  }

  /** The scan finds a match exactly when the token occurs somewhere. */
  lemma {:induction false} MatchCountPositive(s: string, token: string)
    requires |token| > 0
    ensures MatchCount(s, token) > 0 <==> Contains(s, token)
    decreases |s|
  {
    if OccursAt(s, token, 0) {
    } else if s != [] {
      forall i: nat ensures OccursAt(s[1..], token, i) <==> OccursAt(s, token, i + 1) {
        OccursAtTail(s, token, i);
      }
      MatchCountPositive(s[1..], token);
      if Contains(s, token) {
        var i :| 0 <= i <= |s| && OccursAt(s, token, i);
        assert i >= 1;
        OccursAtTail(s, token, i - 1);
        assert OccursAt(s[1..], token, i - 1);
      }
    }
  }

  /** Each replaced occurrence changes the length by |rep| - |token|. */
  lemma {:induction false} ReplaceLength(s: string, token: string, rep: string)
    ensures |ReplaceAll(s, token, rep)| == |s| + MatchCount(s, token) * (|rep| - |token|)
    decreases |s|
  {
    if |token| == 0 {
      if s != [] {
        ReplaceLength(s[1..], token, rep);
        MulSucc(|s|, |rep|);
      }
    } else if OccursAt(s, token, 0) {
      ReplaceLength(s[|token|..], token, rep);
      MulSucc(MatchCount(s[|token|..], token), |rep| - |token|);
    } else if s != [] {
      ReplaceLength(s[1..], token, rep);
    }
  }

  /**
   * Leftmost first: when the first occurrence of `token` starts right after
   * `pre`, the result is `pre` unchanged, then `rep`, then the replacement of
   * what follows the occurrence.  The inserted `rep` is not scanned again and
   * the scan restarts after the whole occurrence, so matches never overlap.
   */
  lemma {:induction false} ReplaceLeftmost(pre: string, token: string, post: string, rep: string)
    requires |token| > 0
    requires forall i :: 0 <= i < |pre| ==> !OccursAt(pre + token + post, token, i)
    ensures ReplaceAll(pre + token + post, token, rep) == pre + rep + ReplaceAll(post, token, rep)
    decreases |pre|
  {
    var s := pre + token + post;
    if pre == [] {
      assert s[..|token|] == token;
      assert s[|token|..] == post;
    } else {
      var tail := pre[1..] + token + post;
      assert s[1..] == tail;
      assert !OccursAt(s, token, 0);
      assert ReplaceAll(s, token, rep) == [pre[0]] + ReplaceAll(tail, token, rep);
      forall i | 0 <= i < |pre[1..]| ensures !OccursAt(tail, token, i) {
        OccursAtTail(s, token, i);
      }
      ReplaceLeftmost(pre[1..], token, post, rep);
      assert [pre[0]] + (pre[1..] + rep + ReplaceAll(post, token, rep)) == pre + rep + ReplaceAll(post, token, rep);
    }
  }

  /** No occurrence of `token` starts inside `a` and ends inside `b`. */
  predicate NoStraddle(a: string, b: string, token: string)
  {
    forall i :: 0 <= i < |a| < i + |token| ==> !OccursAt(a + b, token, i)
  }

  /** Replacement distributes over a concatenation that no occurrence straddles. */
  lemma {:induction false} ReplaceConcat(a: string, b: string, token: string, rep: string)
    requires |token| > 0 && NoStraddle(a, b, token)
    ensures ReplaceAll(a + b, token, rep) == ReplaceAll(a, token, rep) + ReplaceAll(b, token, rep)
    decreases |a|
  {
    var s := a + b;
    if a == [] {
      assert s == b;
    } else if OccursAt(s, token, 0) {
      assert |token| <= |a|;
      assert a[..|token|] == s[..|token|];
      assert OccursAt(a, token, 0);
      var a' := a[|token|..];
      assert s[|token|..] == a' + b;
      forall i | 0 <= i < |a'| < i + |token| ensures !OccursAt(a' + b, token, i) {
        OccursAtSuffix(s, token, |token|, i);
      }
      ReplaceConcat(a', b, token, rep);
    } else {
      if |token| <= |a| {
        assert s[..|token|] == a[..|token|];
      }
      assert s[1..] == a[1..] + b;
      forall i | 0 <= i < |a[1..]| < i + |token| ensures !OccursAt(a[1..] + b, token, i) {
        OccursAtTail(s, token, i);
      }
      ReplaceConcat(a[1..], b, token, rep);
    }
  }

  /** A character that the token needs and the text lacks rules out every occurrence. */
  lemma MissingCharAbsent(s: string, token: string, k: nat)
    requires k < |token| && token[k] !in s
    ensures !Contains(s, token)
  {
    forall i | 0 <= i <= |s| ensures !OccursAt(s, token, i) {
      if i + |token| <= |s| {
        assert s[i..i + |token|][k] == s[i + k];
      }
    }
  }

  /** An occurrence can only straddle `a` and `b` if it starts with a character of `a`. */
  lemma NoStraddleByHead(a: string, b: string, token: string)
    requires |token| > 0 && token[0] !in a
    ensures NoStraddle(a, b, token)
  {
    forall i | 0 <= i < |a| < i + |token| ensures !OccursAt(a + b, token, i) {
      if i + |token| <= |a + b| {
        assert (a + b)[i..i + |token|][0] == a[i];
      }
    }
  }

  /** An occurrence can only straddle `a` and `b` if it contains the first character of `b`. */
  lemma NoStraddleByJoin(a: string, b: string, token: string)
    requires |b| > 0 && b[0] !in token
    ensures NoStraddle(a, b, token)
  {
    forall i | 0 <= i < |a| < i + |token| ensures !OccursAt(a + b, token, i) {
      if i + |token| <= |a + b| {
        assert (a + b)[i..i + |token|][|a| - i] == b[0];
      }
    }
  }

  /** Replacing a token by itself gives back the input. */
  lemma {:induction false} ReplaceBySelf(s: string, token: string)
    requires |token| > 0
    ensures ReplaceAll(s, token, token) == s
    decreases |s|
  {
    if OccursAt(s, token, 0) {
      ReplaceBySelf(s[|token|..], token);
      assert s == token + s[|token|..];
    } else if s != [] {
      ReplaceBySelf(s[1..], token);
      assert s == [s[0]] + s[1..];
    }
  }

  /** Overlapping candidates: "aaa" with "aa" replaced by "b" is "ba", not "bb". */
  lemma NonOverlapping()
    ensures ReplaceAll("aaa", "aa", "b") == "ba"
  {
    assert "aaa" == [] + "aa" + "a";
    ReplaceLeftmost([], "aa", "a", "b");
    ReplaceAbsent("a", "aa", "b");
  }
}
