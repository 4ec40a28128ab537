/**
 * What the wake-phrase gate does to the transcripts it is built for: a
 * leading wake phrase in any case, a phrase that appears later only, a
 * transcript that is the wake phrase alone, and repeated wake phrases.
 */
module GateProperties {
  import opened Wrappers
  import opened Text
  import opened WakeGate

  /** Stripping a string that starts with a non-space character keeps that
      character in front. */
  lemma TrimKeepsFirst(s: string)
    requires s != [] && !IsSpace(s[0])
    ensures Trim(s) != [] ==> Trim(s)[0] == s[0]
  {
    assert TrimStart(s) == s;
  }

  /** Casing does not turn a space into a non-space or back. */
  lemma EqualCIKeepsStripped(v: string, w: string)
    requires EqualCI(v, w) && Stripped(w)
    ensures Stripped(v)
  {
    if v != [] {
      LowerCharKeepsSpace(v[0]);
      LowerCharKeepsSpace(w[0]);
      LowerCharKeepsSpace(v[|v| - 1]);
      LowerCharKeepsSpace(w[|w| - 1]);
    }
  }

  /** Matching is a prefix test: a transcript whose first character is not
      the wake phrase's first character, in any case, forwards nothing,
      whatever follows, including the wake phrase itself. */
  lemma GateIgnoresLaterPhrase(lead: string, rest: string, wake: string)
    requires wake != [] && lead != [] && !IsSpace(lead[0])
    requires LowerChar(lead[0]) != LowerChar(wake[0])
    ensures Gate(lead + wake + rest, wake) == None
  {
    var t := lead + wake + rest;
    TrimKeepsFirst(t);
    if |wake| <= |Trim(t)| {
      var p := Trim(t)[..|wake|];
      assert p[0] == lead[0];
      assert LowerChar(p[0]) != LowerChar(wake[0]);
      assert !EqualCI(p, wake);
    }
  }

  /** The wake phrase the assistant starts with. */
  const DefaultWake := "hey computer"

  /** "oh hey computer what time is it" does not wake the assistant. */
  lemma PrefixOnlyExample()
    ensures Gate("oh " + DefaultWake + " what time is it", DefaultWake) == None
  {
    GateIgnoresLaterPhrase("oh ", " what time is it", DefaultWake);
  }

  /** A transcript that starts with the wake phrase, in any case, and does
      not contain it again forwards what follows the phrase, stripped. */
  lemma {:induction false} GateStripsLeadingPhrase(spoken: string, rest: string, wake: string)
    requires wake != [] && EqualCI(spoken, wake)
    requires Stripped(spoken + rest)
    requires forall i: nat :: i <= |rest| ==> !MatchAt(rest, i, wake)
    ensures Gate(spoken + rest, wake) == Some(Trim(rest))
  {
    var t := spoken + rest;
    assert t[0..|wake|] == spoken;
    GateLeadingMatch(t, wake);
    assert t[|wake|..] == rest;
    RemoveAllNoMatch(rest, wake);
  }

  /** "Hey Computer what is the capital of france" forwards
      "what is the capital of france". */
  lemma CaseInsensitiveExample()
    ensures Gate("Hey Computer" + CapitalQuestion, DefaultWake) == Some(Capital)
  {
    assert EqualCI("Hey Computer", DefaultWake);
    CapitalQuestionHasNoWake();
    GateStripsLeadingPhrase("Hey Computer", CapitalQuestion, DefaultWake);
    CapitalQuestionTrimmed();
  }

  const Capital := "what is the capital of france"
  const CapitalQuestion := " " + Capital

  lemma CapitalQuestionHasNoWake()
    ensures forall i: nat :: i <= |CapitalQuestion| ==> !MatchAt(CapitalQuestion, i, DefaultWake)
  {
    AbsentCharNoMatch(CapitalQuestion, DefaultWake, 2);
  }

  lemma CapitalQuestionTrimmed()
    ensures Trim(CapitalQuestion) == Capital
  {
    TrimPadded(" ", Capital, []);
    assert " " + Capital + [] == CapitalQuestion;
  }

  /** A transcript that is only the wake phrase, in any case and with any
      surrounding whitespace, forwards the empty question: nothing guards
      against an empty remainder. */
  lemma WakeOnlyForwardsEmpty(pre: string, spoken: string, post: string, wake: string)
    requires AllSpace(pre) && AllSpace(post)
    requires wake != [] && Stripped(wake) && EqualCI(spoken, wake)
    ensures Gate(pre + spoken + post, wake) == Some([])
  {
    EqualCIKeepsStripped(spoken, wake);
    TrimPadded(pre, spoken, post);
    GateSeesStripped(pre + spoken + post, wake);
    assert spoken[0..|wake|] == spoken;
    GateLeadingMatch(spoken, wake);
    assert spoken[|wake|..] == [];
    assert Trim([]) == [];
  }

  /** A position holding a character other than the pattern's first, in any
      case, starts no match. */
  lemma FirstCharMismatch(s: string, w: string, k: nat)
    requires w != [] && k <= |s|
    requires forall i :: 0 <= i < k ==> LowerChar(s[i]) != LowerChar(w[0])
    ensures forall i: nat :: i < k ==> !MatchAt(s, i, w)
  {
    forall i: nat | i < k && i + |w| <= |s| ensures !MatchAt(s, i, w) {
      assert s[i..i + |w|][0] == s[i];
    }
  }

  /** Later occurrences are deleted too, not only the leading one: with the
      wake phrase spoken twice, the forwarded question is the text between
      and after the two, stripped, and the whitespace that surrounded the
      second phrase stays inside it. */
  lemma {:induction false} GateRemovesRepeatedPhrase(
    first: string, between: string, second: string, tail: string, wake: string)
    requires wake != [] && EqualCI(first, wake) && EqualCI(second, wake)
    requires Stripped(first + between + second + tail)
    requires forall i: nat :: i < |between| ==> !MatchAt(between + second + tail, i, wake)
    requires forall i: nat :: i <= |tail| ==> !MatchAt(tail, i, wake)
    ensures Gate(first + between + second + tail, wake) == Some(Trim(between + tail))
  {
    var after := between + second + tail;
    var t := first + after;
    assert t == first + between + second + tail;
    assert t[0..|wake|] == first;
    assert t[|wake|..] == after;
    GateLeadingMatch(t, wake);
    RemoveAllRepeated(between, second, tail, wake);
  }

  /** After the leading phrase, the substitution keeps the text up to the
      next occurrence, deletes that occurrence and keeps a tail that holds
      none. */
  lemma {:induction false} RemoveAllRepeated(between: string, second: string, tail: string, wake: string)
    requires wake != [] && EqualCI(second, wake)
    requires forall i: nat :: i < |between| ==> !MatchAt(between + second + tail, i, wake)
    requires forall i: nat :: i <= |tail| ==> !MatchAt(tail, i, wake)
    ensures RemoveAllCI(between + second + tail, wake) == between + tail
  {
    var after := between + second + tail;
    assert MatchAt(after, |between|, wake) by {
      assert after[|between|..|between| + |wake|] == second;
    }
    RemoveAllFirstMatch(after, wake, |between|);
    assert after[..|between|] == between;
    assert after[|between| + |wake|..] == tail;
    RemoveAllNoMatch(tail, wake);
  }

  /** "hey computer tell hey computer a joke" forwards "tell  a joke". */
  lemma EveryOccurrenceExample()
    ensures Gate(DefaultWake + " tell " + DefaultWake + " a joke", DefaultWake) == Some("tell  a joke")
  {
    FirstCharMismatch(" tell " + DefaultWake + " a joke", DefaultWake, 6);
    GateRemovesRepeatedPhrase(DefaultWake, " tell ", DefaultWake, " a joke", DefaultWake);
    JokeTrimmed();
  }

  lemma JokeTrimmed()
    ensures Trim(" tell " + " a joke") == "tell  a joke"
  {
    TrimPadded(" ", "tell  a joke", []);
    assert " " + "tell  a joke" + [] == " tell " + " a joke";
  }

  /** With an empty wake phrase every transcript is forwarded, stripped and
      otherwise unchanged. */
  lemma EmptyWakeForwardsAll(transcript: string)
    ensures Gate(transcript, "") == Some(Trim(transcript))
  {
    GateSeesStripped(transcript, "");
    var text := Trim(transcript);
    assert EqualCI(text[..0], "");
    assert RemoveAllCI(text, "") == text;
    TrimIdempotent(transcript);
  }

  /** Deleted occurrences do not overlap: in "aaa" the pattern "AA" matches
      at the first character, the scan resumes at the third, and the last
      "a" is kept. */
  lemma NonOverlappingExample()
    ensures RemoveAllCI("aaa", "AA") == "a"
  {
    assert MatchAt("aaa", 0, "AA") by {
      assert "aaa"[0..2] == "aa";
    }
    RemoveAllFirstMatch("aaa", "AA", 0);
    assert "aaa"[2..] == "a";
    RemoveAllNoMatch("a", "AA");
  }
}
