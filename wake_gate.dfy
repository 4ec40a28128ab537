/**
 * The wake-phrase gate of the transcription stage: a transcript is acted on
 * only when, once stripped, it starts with the wake phrase ignoring case; the
 * question forwarded is then the transcript with every case-insensitive
 * occurrence of the wake phrase deleted, stripped again.
 */
module WakeGate {
  import opened Wrappers
  import opened Text

  /** `s.lower().startswith(w.lower())`: holds exactly when the first `|w|`
      characters of `s` equal `w` ignoring case. */
  predicate StartsWithCI(s: string, w: string)
    ensures StartsWithCI(s, w) <==> |w| <= |s| && EqualCI(s[..|w|], w)
  {
    |w| <= |s| &&
    (LowerPrefix(s, |w|); LowerEqualIsEqualCI(s[..|w|], w); Lower(s)[..|w|] == Lower(w))
  }

  /** Case-insensitive equality, character by character. */
  predicate EqualCI(a: string, b: string) {
    |a| == |b| &&
    forall i {:trigger LowerChar(a[i]), LowerChar(b[i])} :: 0 <= i < |a| ==> LowerChar(a[i]) == LowerChar(b[i])
  }

  /** The escaped, case-insensitive pattern `w` matches `s` at position `i`. */
  predicate MatchAt(s: string, i: nat, w: string) {
    i + |w| <= |s| && EqualCI(s[i..i + |w|], w)
  }

  lemma LowerEqualIsEqualCI(a: string, b: string)
    requires |a| == |b|
    ensures Lower(a) == Lower(b) <==> EqualCI(a, b)
  {
    if EqualCI(a, b) {
      assert forall i :: 0 <= i < |a| ==> Lower(a)[i] == Lower(b)[i];
    }
    if Lower(a) == Lower(b) {
      forall i | 0 <= i < |a| ensures LowerChar(a[i]) == LowerChar(b[i]) {
        assert Lower(a)[i] == Lower(b)[i];
      }
    }
  }

  /** A text that starts with a non-empty pattern, ignoring case, has a match
      of the pattern at its first character. */
  lemma StartsWithIsMatchAt(s: string, w: string)
    ensures StartsWithCI(s, w) && w != [] ==> MatchAt(s, 0, w)
  {
    if StartsWithCI(s, w) && w != [] {
      assert s[..|w|] == s[0..|w|];
    }
  }

  /**
   * `re.compile(re.escape(w), re.IGNORECASE).sub("", s)`: scanning left to
   * right, every match of `w` is deleted and the scan resumes right after it,
   * so deleted occurrences never overlap. An empty pattern matches only the
   * empty string, and substituting the empty string for it changes nothing.
   */
  function RemoveAllCI(s: string, w: string): (r: string)
    ensures |r| <= |s|
  {
    if w == [] || s == [] then s
    else if MatchAt(s, 0, w) then RemoveAllCI(s[|w|..], w)
    else [s[0]] + RemoveAllCI(s[1..], w)
  }

  lemma MatchAtShift(s: string, i: nat, w: string)
    requires s != []
    ensures MatchAt(s, i + 1, w) <==> MatchAt(s[1..], i, w)
  {
    if i + 1 + |w| <= |s| {
      assert s[i + 1..i + 1 + |w|] == s[1..][i..i + |w|];
    }
  }

  /** Where the pattern occurs nowhere, the substitution leaves the text as it is. */
  lemma {:induction false} RemoveAllNoMatch(s: string, w: string)
    requires forall i: nat :: i <= |s| ==> !MatchAt(s, i, w)
    ensures RemoveAllCI(s, w) == s
  {
    if w != [] && s != [] {
      assert !MatchAt(s, 0, w);
      forall i: nat | i <= |s[1..]| ensures !MatchAt(s[1..], i, w) {
        MatchAtShift(s, i, w);
      }
      RemoveAllNoMatch(s[1..], w);
      assert s == [s[0]] + s[1..];
    }
  }

  /** The leftmost occurrence is the first one deleted: everything before it is
      kept and the substitution carries on after its end. */
  lemma {:induction false} RemoveAllFirstMatch(s: string, w: string, k: nat)
    requires w != [] && MatchAt(s, k, w)
    requires forall i: nat :: i < k ==> !MatchAt(s, i, w)
    ensures RemoveAllCI(s, w) == s[..k] + RemoveAllCI(s[k + |w|..], w)
  {
    var tail := RemoveAllCI(s[k + |w|..], w);
    if k == 0 {
      assert RemoveAllCI(s, w) == tail by {
        assert MatchAt(s, 0, w);
      }
      assert s[..k] + tail == tail;
    } else {
      var rest := s[1..];
      assert MatchAt(rest, k - 1, w) by {
        MatchAtShift(s, k - 1, w);
      }
      assert forall i: nat :: i < k - 1 ==> !MatchAt(rest, i, w) by {
        forall i: nat | i < k - 1 ensures !MatchAt(rest, i, w) {
          MatchAtShift(s, i, w);
        }
      }
      RemoveAllFirstMatch(rest, w, k - 1);
      DropTail(s, k, |w|);
      assert RemoveAllCI(rest[k - 1 + |w|..], w) == tail;
      Substitute(RemoveAllCI(rest, w), rest[..k - 1], RemoveAllCI(rest[k - 1 + |w|..], w), tail);
      KeepUnmatchedHead(s, w, k, tail);
    }
  }

  /** A head character that starts no match is kept in front of what the
      substitution makes of the rest. */
  lemma KeepUnmatchedHead(s: string, w: string, k: nat, tail: string)
    requires w != [] && 0 < k <= |s| && !MatchAt(s, 0, w)
    requires RemoveAllCI(s[1..], w) == s[1..][..k - 1] + tail
    ensures RemoveAllCI(s, w) == s[..k] + tail
  {
    TakeCons(s, k);
    RemoveAllSkip(s, w);
    Splice(s[0], s[1..][..k - 1], tail, s[..k], RemoveAllCI(s, w), RemoveAllCI(s[1..], w));
  }

  // The sequence facts below are stated apart so that proving them does not
  // unfold RemoveAllCI on every slice in sight.

  lemma Substitute<T>(r: seq<T>, a: seq<T>, b: seq<T>, c: seq<T>)
    requires r == a + b && b == c
    ensures r == a + c
  {
  }

  lemma Splice<T>(x: T, a: seq<T>, b: seq<T>, xa: seq<T>, r: seq<T>, r1: seq<T>)
    requires r == [x] + r1 && r1 == a + b && xa == [x] + a
    ensures r == xa + b
  {
  }

  lemma TakeCons(s: string, k: nat)
    requires 0 < k <= |s|
    ensures s[..k] == [s[0]] + s[1..][..k - 1]
  {
  }

  lemma DropTail(s: string, k: nat, n: nat)
    requires 0 < k && k + n <= |s|
    ensures s[1..][k - 1 + n..] == s[k + n..]
  {
  }

  lemma RemoveAllSkip(s: string, w: string)
    requires w != [] && s != [] && !MatchAt(s, 0, w)
    ensures RemoveAllCI(s, w) == [s[0]] + RemoveAllCI(s[1..], w)
  {
  }

  /** A pattern holding a character that no character of `s` equals, ignoring
      case, never matches `s`. */
  lemma AbsentCharNoMatch(s: string, w: string, j: nat)
    requires j < |w|
    requires forall i :: 0 <= i < |s| ==> LowerChar(s[i]) != LowerChar(w[j])
    ensures forall i: nat :: i <= |s| ==> !MatchAt(s, i, w)
  {
    forall i: nat | i <= |s| ensures !MatchAt(s, i, w) {
      if i + |w| <= |s| {
        assert s[i..i + |w|][j] == s[i + j];
      }
    }
  }

  /**
   * The transcription stage's decision on one transcript (the text the
   * transcriber returned): `None` when nothing is forwarded, `Some(q)` when
   * the question `q` is put on the result queue.
   */
  function Gate(transcript: string, wake: string): (r: Option<string>)
    ensures r.Some? <==> |wake| <= |Trim(transcript)| && EqualCI(Trim(transcript)[..|wake|], wake)
    ensures r.Some? ==> Stripped(r.value)
    ensures r.Some? ==> |r.value| <= |Trim(transcript)| - |wake|
  {
    var text := Trim(transcript);
    StartsWithIsMatchAt(text, wake);
    if StartsWithCI(text, wake) then
      Some(Trim(RemoveAllCI(text, wake)))
    else
      None
  }

  /** A stripped transcript that starts with the wake phrase forwards what
      the substitution makes of the text after that leading occurrence,
      stripped. */
  lemma GateLeadingMatch(t: string, wake: string)
    requires wake != [] && Stripped(t) && MatchAt(t, 0, wake)
    ensures Gate(t, wake) == Some(Trim(RemoveAllCI(t[|wake|..], wake)))
  {
    TrimPadded([], t, []);
    assert [] + t + [] == t;
    assert t[..|wake|] == t[0..|wake|];
    assert RemoveAllCI(t, wake) == RemoveAllCI(t[|wake|..], wake);
  }

  /** The gate looks only at the stripped transcript. */
  lemma GateSeesStripped(transcript: string, wake: string)
    ensures Gate(transcript, wake) == Gate(Trim(transcript), wake)
  {
    TrimIdempotent(transcript);
  }
}
