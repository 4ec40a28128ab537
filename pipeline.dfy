/**
 * The assistant's two hand-off queues and the stages that move items along
 * them: the capture stage appends utterances to the audio queue, the
 * transcription stage turns the head utterance into at most one question on
 * the result queue, and the reply stage turns the head question into one
 * prompt for the chat capability and hands the answer to speech synthesis.
 * The stages run on their own threads; here each stage is a step on the
 * shared state, and a run is any interleaving of steps.
 */
module Pipeline {
  import opened Wrappers
  import opened WakeGate
  import opened PromptFormat

  /** One finished utterance: the normalised samples the capture stage hands over. */
  type Audio = seq<real>

  /** What the transcription stage puts on the result queue for one
      decision: the forwarded question, or nothing. */
  function Forward(decision: Option<string>): (qs: seq<string>)
    ensures |qs| <= 1
    ensures qs == [] <==> decision.None?
    ensures qs != [] ==> qs[0] == decision.value
  {
    if decision.Some? then [decision.value] else []
  }

  /** The questions a run of utterances yields, in the order they were
      spoken. `decide` is the transcription stage's work on one utterance:
      transcribe it, then gate the transcript. */
  function Questions(utterances: seq<Audio>, decide: Audio -> Option<string>): (qs: seq<string>)
    ensures |qs| <= |utterances|
  {
    if utterances == [] then [] else Forward(decide(utterances[0])) + Questions(utterances[1..], decide)
  }

  /** Utterances spoken one after the other yield their questions one after
      the other. */
  lemma {:induction false} QuestionsAppend(xs: seq<Audio>, ys: seq<Audio>, decide: Audio -> Option<string>)
    ensures Questions(xs + ys, decide) == Questions(xs, decide) + Questions(ys, decide)
  {
    if xs == [] {
      assert xs + ys == ys;
    } else {
      assert (xs + ys)[1..] == xs[1..] + ys;
      QuestionsAppend(xs[1..], ys, decide);
    }
  }

  /** A question yielded by an utterance sits right after the questions of
      the utterances heard before it. */
  lemma QuestionsAt(utterances: seq<Audio>, i: nat, decide: Audio -> Option<string>)
    requires i < |utterances| && decide(utterances[i]).Some?
    ensures |Questions(utterances[..i], decide)| < |Questions(utterances[..i + 1], decide)|
                                                <= |Questions(utterances, decide)|
    ensures Questions(utterances, decide)[|Questions(utterances[..i], decide)|] == decide(utterances[i]).value
  {
    var before, at, after := utterances[..i], [utterances[i]], utterances[i + 1..];
    assert utterances[..i + 1] == before + at;
    assert utterances == before + at + after;
    QuestionsAppend(before, at, decide);
    QuestionsAppend(before + at, after, decide);
    assert Questions(at, decide) == [decide(utterances[i]).value] by {
      assert at[1..] == [];
    }
  }

  /** Two utterances that both yield a question yield them in the order they
      were spoken. */
  lemma QuestionsKeepOrder(utterances: seq<Audio>, i: nat, j: nat, decide: Audio -> Option<string>)
    requires i < j < |utterances|
    requires decide(utterances[i]).Some? && decide(utterances[j]).Some?
    ensures exists a, b :: 0 <= a < b < |Questions(utterances, decide)|
                        && Questions(utterances, decide)[a] == decide(utterances[i]).value
                        && Questions(utterances, decide)[b] == decide(utterances[j]).value
  {
    QuestionsAt(utterances, i, decide);
    QuestionsAt(utterances, j, decide);
    assert utterances[..j] == utterances[..i + 1] + utterances[i + 1..j];
    QuestionsAppend(utterances[..i + 1], utterances[i + 1..j], decide);
    var a := |Questions(utterances[..i], decide)|;
    var b := |Questions(utterances[..j], decide)|;
    assert a < b;
  }

  /** The prompts, in order, for a run of questions: one prompt per
      question, from which that question, and no other, is read back. */
  function PromptsFor(questions: seq<string>): (ps: seq<string>)
    ensures |ps| == |questions|
    ensures forall k :: 0 <= k < |questions| ==> ps[k] == Prompt(questions[k])
    ensures forall k :: 0 <= k < |ps| ==> ParsePrompt(ps[k]) == Some(questions[k])
  {
    var ps := seq(|questions|, k requires 0 <= k < |questions| => Prompt(questions[k]));
    PromptsParseBack(questions, ps);
    ps
  }

  lemma PromptsParseBack(questions: seq<string>, ps: seq<string>)
    requires |ps| == |questions|
    requires forall k :: 0 <= k < |questions| ==> ps[k] == Prompt(questions[k])
    ensures forall k :: 0 <= k < |ps| ==> ParsePrompt(ps[k]) == Some(questions[k])
  {
    forall k | 0 <= k < |ps| ensures ParsePrompt(ps[k]) == Some(questions[k]) {
      ParsePromptOfPrompt(questions[k]);
    }
  }

  lemma PromptsForAppend(xs: seq<string>, ys: seq<string>)
    ensures PromptsFor(xs + ys) == PromptsFor(xs) + PromptsFor(ys)
  {
    assert forall k :: 0 <= k < |xs + ys| ==> PromptsFor(xs + ys)[k] == (PromptsFor(xs) + PromptsFor(ys))[k];
  }

  /** A transcription turn moves the head utterance's question, if any, from
      the utterances still to be heard to the end of the waiting questions:
      what is pending, in order, stays the same. */
  lemma TranscribeKeepsPending(queued: seq<string>, waiting: seq<Audio>, decide: Audio -> Option<string>)
    requires waiting != []
    ensures (queued + Forward(decide(waiting[0]))) + Questions(waiting[1..], decide)
         == queued + Questions(waiting, decide)
  {
    QuestionsHead(waiting, decide);
    Regroup(queued, Forward(decide(waiting[0])), Questions(waiting[1..], decide), Questions(waiting, decide));
  }

  lemma QuestionsHead(waiting: seq<Audio>, decide: Audio -> Option<string>)
    requires waiting != []
    ensures Questions(waiting, decide) == Forward(decide(waiting[0])) + Questions(waiting[1..], decide)
  {
  }

  lemma Regroup<T>(a: seq<T>, b: seq<T>, c: seq<T>, d: seq<T>)
    requires d == b + c
    ensures (a + b) + c == a + d
  {
  }

  /** A reply turn moves the oldest waiting question's prompt from what is
      pending to what was sent. */
  lemma ReplyKeepsPending(sent: seq<string>, queued: seq<string>, later: seq<string>)
    requires queued != []
    ensures (sent + [Prompt(queued[0])]) + PromptsFor(queued[1..] + later)
         == sent + PromptsFor(queued + later)
  {
    assert queued + later == [queued[0]] + (queued[1..] + later);
    PromptsForAppend([queued[0]], queued[1..] + later);
  }

  class Assistant {
    /** The configured wake phrase. */
    const wake: string
    /** The speech-to-text model, as a function of the utterance. */
    const transcribe: Audio -> string
    /** The chat capability: the answer, or the error text in its place. */
    const chat: string -> string
    /** The transcription stage's work on one utterance: transcribe, then gate. */
    const decide: Audio -> Option<string>

    /** Utterances captured and not yet transcribed, oldest first. */
    var audioQ: seq<Audio>
    /** Questions forwarded and not yet answered, oldest first. */
    var resultQ: seq<string>
    /** Every prompt sent to the chat capability, in sending order. */
    var prompts: seq<string>
    /** Every answer handed to speech synthesis, in the same order. */
    var answers: seq<string>

    /** `decide` is the gate applied to the transcript. It depends on
        constant fields only, so no step can change it. */
    ghost predicate Wired() {
      forall u {:trigger Gate(transcribe(u), wake)} :: decide(u) == Gate(transcribe(u), wake)
    }

    /** Each answer handed to speech synthesis is the chat capability's reply
        to the prompt sent at the same turn. */
    ghost predicate Valid()
      reads this
    {
      |answers| == |prompts| &&
      forall k :: 0 <= k < |prompts| ==> answers[k] == chat(prompts[k])
    }

    /** Everything still to be sent to the chat capability, in the order it
        will be sent: the waiting questions, then those the waiting utterances
        will yield. */
    ghost function Pending(): seq<string>
      reads this
    {
      resultQ + Questions(audioQ, decide)
    }

    constructor (wake: string, transcribe: Audio -> string, chat: string -> string)
      ensures Wired() && Valid()
      ensures this.wake == wake && this.transcribe == transcribe && this.chat == chat
      ensures audioQ == [] && resultQ == [] && prompts == [] && answers == []
    {
      this.wake := wake;
      this.transcribe := transcribe;
      this.chat := chat;
      this.decide := (u: Audio) => Gate(transcribe(u), wake);
      audioQ, resultQ, prompts, answers := [], [], [], [];
    }

    /** The capture stage hands over one finished utterance without waiting. */
    method Capture(utterance: Audio)
      requires Valid()
      modifies this
      ensures Valid()
      ensures audioQ == old(audioQ) + [utterance]
      ensures resultQ == old(resultQ) && prompts == old(prompts) && answers == old(answers)
    {
      audioQ := audioQ + [utterance];
    }

    /** One turn of the transcription stage. With no utterance waiting the
        stage is idle and nothing changes; otherwise it takes the oldest
        utterance, transcribes it and appends the gated question, if any, at
        the end of the result queue. */
    method TranscribeStep() returns (worked: bool)
      requires Wired() && Valid()
      modifies this
      ensures Valid()
      ensures worked <==> old(audioQ) != []
      ensures worked ==> (audioQ == old(audioQ)[1..] &&
                          resultQ == old(resultQ) + Forward(decide(old(audioQ)[0])))
      ensures worked ==> resultQ == old(resultQ) + Forward(Gate(transcribe(old(audioQ)[0]), wake))
      ensures !worked ==> audioQ == old(audioQ) && resultQ == old(resultQ)
      ensures prompts == old(prompts) && answers == old(answers)
    {
      if audioQ == [] {
        return false;
      }
      var utterance := audioQ[0];
      audioQ := audioQ[1..];
      var gated := decide(utterance);
      if gated.Some? {
        resultQ := resultQ + [gated.value];
      }
      return true;
    }

    /** One turn of the reply stage. With no question waiting the stage is
        idle; otherwise it takes the oldest question, sends its prompt to the
        chat capability and hands the answer, or the error text, to speech
        synthesis. */
    method ReplyStep() returns (worked: bool)
      requires Valid()
      modifies this
      ensures Valid()
      ensures worked <==> old(resultQ) != []
      ensures worked ==> (resultQ == old(resultQ)[1..] &&
                          prompts == old(prompts) + [Prompt(old(resultQ)[0])] &&
                          answers == old(answers) + [chat(Prompt(old(resultQ)[0]))])
      ensures !worked ==> resultQ == old(resultQ) && prompts == old(prompts) && answers == old(answers)
      ensures audioQ == old(audioQ)
    {
      if resultQ == [] {
        return false;
      }
      var question := resultQ[0];
      resultQ := resultQ[1..];
      var prompt := Prompt(question);
      prompts := prompts + [prompt];
      answers := answers + [chat(prompt)];
      return true;
    }

    /** The transcription stage works through every waiting utterance. */
    method TranscribeAll()
      requires Wired() && Valid()
      modifies this
      ensures Valid()
      ensures audioQ == []
      ensures resultQ == old(resultQ) + Questions(old(audioQ), decide)
      ensures prompts == old(prompts) && answers == old(answers)
    {
      while audioQ != []
        invariant Valid()
        invariant resultQ + Questions(audioQ, decide) == old(resultQ) + Questions(old(audioQ), decide)
        invariant prompts == old(prompts) && answers == old(answers)
        decreases |audioQ|
      {
        ghost var waiting, queued := audioQ, resultQ;
        var _ := TranscribeStep();
        TranscribeKeepsPending(queued, waiting, decide);
      }
      assert resultQ + Questions(audioQ, decide) == resultQ;
    }

    /** Both stages run, their turns interleaved in any order, until both
        queues are empty. Whatever the interleaving, the chat capability
        receives the prompts of the questions that were waiting, then of those
        the waiting utterances yield, in that order. */
    method Run()
      requires Wired() && Valid()
      modifies this
      ensures Valid()
      ensures audioQ == [] && resultQ == []
      ensures prompts == old(prompts) + PromptsFor(old(resultQ) + Questions(old(audioQ), decide))
    {
      ghost var total := old(prompts) + PromptsFor(Pending());
      while audioQ != [] || resultQ != []
        invariant Valid()
        invariant prompts + PromptsFor(resultQ + Questions(audioQ, decide)) == total
        decreases 2 * |audioQ| + |resultQ|
      {
        var transcribeFirst: bool := *;
        if audioQ != [] && (resultQ == [] || transcribeFirst) {
          ghost var waiting, queued := audioQ, resultQ;
          var _ := TranscribeStep();
          TranscribeKeepsPending(queued, waiting, decide);
        } else {
          ghost var queued, sent := resultQ, prompts;
          var _ := ReplyStep();
          ReplyKeepsPending(sent, queued, Questions(audioQ, decide));
        }
      }
      assert resultQ + Questions(audioQ, decide) == [];
    }
  }
}
