# Wake-phrase voice assistant: a Dafny model

The assistant in `app.py` is a pipeline of three threads joined by two FIFO
queues:
- The capture stage records finished utterances onto the audio queue.
- The transcription stage takes one utterance at a time and transcribes it.
  It forwards a question to the result queue only when the stripped
  transcript starts with the configured wake phrase, ignoring case.
- The reply stage takes one question at a time, wraps it in the prompt
  `Q: <question>?\nA:`, asks the chat service and hands the answer to
  speech synthesis.

This project models the decision logic and the queue discipline of that
pipeline:

- `text.dfy` (module `Text`): `str.strip()` and `str.lower()` on ASCII text.
  Strip uses the whitespace set of `str.isspace()` below 128 (tab through
  carriage return, 0x1C–0x1F, space).
- `wake_gate.dfy` (module `WakeGate`):
  - the case-insensitive prefix test;
  - the substitution `re.compile(re.escape(wake), re.IGNORECASE).sub("", text)`
    as a left-to-right, non-overlapping deletion of every match;
  - the whole per-transcript decision `Gate`.
- `gate_properties.dfy` (module `GateProperties`): what the gate does with
  the transcripts it is built for, as general lemmas and concrete examples.
- `prompt.dfy` (module `PromptFormat`): the prompt the reply stage builds,
  with its inverse.
- `pipeline.dfy` (module `Pipeline`): the two queues and the stages.
  - `Assistant` is a class whose fields are the queues and what has been
    sent to the chat service.
  - Each stage turn is a method.
  - `Run` interleaves the two consuming stages in any order.
  - Ordering is proved against the specification function `Questions`: the
    questions a run of utterances yields, in order.

The model follows the code as written, including where a reader might
expect otherwise:

- **Every occurrence is removed.** The substitution has no count, so every
  occurrence of the wake phrase is deleted, not only the leading one. The
  whitespace that surrounded a later occurrence stays in the question.
- **An empty remainder is forwarded.** A transcript that is only the wake
  phrase forwards the empty question. Nothing in the code discards an
  empty remainder.
- **Matching is a prefix test.** A transcript that mentions the wake phrase
  after other words forwards nothing.
- **An empty wake phrase forwards every transcript.** It is forwarded
  stripped and otherwise unchanged.

## Model

| member | source | states |
|---|---|---|
| `Text.TrimStart` | app.py:86 | the result is a suffix of the input, everything dropped is whitespace, and it does not start with whitespace |
| `Text.TrimEnd` | app.py:86 | the result is a prefix of the input, everything dropped is whitespace, and it does not end with whitespace |
| `Text.Trim` | app.py:86 | the stripped text neither begins nor ends with whitespace and is no longer than the input |
| `Text.TrimPadded` | app.py:93 | stripping removes exactly the whitespace padding around a stripped core, which fixes `strip()` for every input |
| `Text.TrimIdempotent` | app.py:93 | stripping an already stripped text changes nothing |
| `Text.LowerCharKeepsSpace` | app.py:91 | lower-casing never turns whitespace into non-whitespace or back |
| `WakeGate.LowerEqualIsEqualCI` | app.py:91 | comparing lower-cased strings is comparing them character by character ignoring case |
| `Text.LowerChar` | app.py:91 | ASCII `lower()` of one character turns a capital into the small letter at the same place in the alphabet, leaves no capital letter, keeps letters letters and leaves every other character alone |
| `Text.LowerCharEqual` | app.py:91 | two characters fold alike exactly when they are equal or are the same letter in its two cases |
| `Text.Lower` | app.py:91 | `lower()` keeps the length and leaves no capital letter |
| `Text.LowerIdempotent` | app.py:91 | lower-casing twice is lower-casing once |
| `Text.LowerPrefix` | app.py:91 | lower-casing a prefix gives the prefix of the lower-cased text |
| `WakeGate.StartsWithCI` | app.py:91 | `text.lower().startswith(wake.lower())` holds exactly when the first `len(wake)` characters equal the wake phrase ignoring case |
| `WakeGate.StartsWithIsMatchAt` | app.py:91-92 | a transcript that passes the prefix test with a non-empty wake phrase has a match of the escaped pattern at its first character |
| `WakeGate.RemoveAllCI` | app.py:92-93 | the substitution never lengthens the text |
| `WakeGate.RemoveAllNoMatch` | app.py:92-93 | where the pattern matches nowhere, the substitution returns the text unchanged |
| `WakeGate.RemoveAllFirstMatch` | app.py:92-93 | the leftmost match is deleted, everything before it is kept, and the scan resumes right after its end |
| `WakeGate.AbsentCharNoMatch` | app.py:92 | a pattern holding a character absent from the text, ignoring case, matches nowhere in it |
| `WakeGate.Gate` | app.py:86-96 | a question is forwarded if and only if the stripped transcript starts with the wake phrase ignoring case; the question is stripped and shorter than the stripped transcript by at least the phrase's length |
| `WakeGate.GateLeadingMatch` | app.py:91-96 | on a stripped transcript that starts with the wake phrase, the question is the rest after that phrase with every further occurrence deleted, stripped |
| `WakeGate.GateSeesStripped` | app.py:86 | the decision depends only on the stripped transcript |
| `GateProperties.GateIgnoresLaterPhrase` | app.py:91 | a transcript whose first character differs from the wake phrase's, ignoring case, forwards nothing, even when it contains the wake phrase later |
| `GateProperties.PrefixOnlyExample` | app.py:91 | "oh hey computer what time is it" forwards nothing |
| `GateProperties.GateStripsLeadingPhrase` | app.py:91-96 | a transcript that starts with the wake phrase in any case and holds no other occurrence forwards the rest, stripped |
| `GateProperties.CaseInsensitiveExample` | app.py:91-96 | "Hey Computer what is the capital of france" forwards "what is the capital of france" |
| `GateProperties.WakeOnlyForwardsEmpty` | app.py:91-96 | a transcript that is only the wake phrase, in any case and with any surrounding whitespace, forwards the empty question |
| `GateProperties.GateRemovesRepeatedPhrase` | app.py:92-96 | with the wake phrase spoken twice, both occurrences are deleted and the text around them is forwarded, stripped |
| `GateProperties.RemoveAllRepeated` | app.py:92-93 | after the leading phrase, the substitution keeps the text up to the next occurrence, deletes it and keeps the rest |
| `GateProperties.EveryOccurrenceExample` | app.py:92-96 | "hey computer tell hey computer a joke" forwards "tell  a joke" |
| `GateProperties.EmptyWakeForwardsAll` | app.py:91-96 | with an empty wake phrase every transcript is forwarded, stripped and otherwise unchanged |
| `GateProperties.NonOverlappingExample` | app.py:92-93 | deleted matches do not overlap: "aaa" with the pattern "AA" leaves "a" |
| `GateProperties.EqualCIKeepsStripped` | app.py:91-93 | a string equal ignoring case to a stripped string is itself stripped |
| `PromptFormat.Prompt` | app.py:108 | the prompt is `Q: `, the question and `?\nA:`, with exactly that prefix, suffix and length |
| `PromptFormat.ParsePromptOfPrompt` | app.py:108 | the question is recovered exactly from its prompt |
| `PromptFormat.PromptOfParsePrompt` | app.py:108 | every text with the prompt's frame is the prompt of the question it frames |
| `PromptFormat.PromptInjective` | app.py:108 | different questions give different prompts |
| `Pipeline.Forward` | app.py:91-99 | one transcript puts at most one question on the result queue: nothing when the gate says no, and the gated question otherwise |
| `Pipeline.Questions` | app.py:83-99 | a run of utterances yields no more questions than utterances |
| `Pipeline.QuestionsAppend` | app.py:83-99 | utterances heard one after the other yield their questions one after the other |
| `Pipeline.QuestionsAt` | app.py:96 | a question yielded by an utterance sits right after the questions of the utterances heard before it |
| `Pipeline.QuestionsKeepOrder` | app.py:83-99 | two utterances that both yield a question yield them in the order they were spoken |
| `Pipeline.PromptsFor` | app.py:104-108 | one prompt per question, in order, and each prompt reads back as exactly its own question |
| `Pipeline.PromptsForAppend` | app.py:103-109 | the prompts of consecutive runs of questions are consecutive |
| `Pipeline.TranscribeKeepsPending` | app.py:84-96 | a transcription turn leaves the pending questions and their order unchanged |
| `Pipeline.ReplyKeepsPending` | app.py:104-109 | a reply turn moves the oldest pending question's prompt to what has been sent |
| `Pipeline.Assistant.constructor` | app.py:124-136 | the assistant starts with the configured wake phrase, transcriber and chat service, and with empty queues |
| `Pipeline.Assistant.Capture` | app.py:77 | an utterance is appended at the end of the audio queue and nothing else changes |
| `Pipeline.Assistant.TranscribeStep` | app.py:83-99 | with no utterance waiting the stage does nothing; otherwise it removes the oldest utterance and appends its gated question, if any, at the end of the result queue; nothing else changes |
| `Pipeline.Assistant.ReplyStep` | app.py:103-109 | with no question waiting the stage does nothing; otherwise it removes the oldest question, records its prompt as sent and the chat service's reply to it as the answer; the audio queue is untouched |
| `Pipeline.Assistant.TranscribeAll` | app.py:83-99 | working through every waiting utterance appends their questions, in order, to the result queue |
| `Pipeline.Assistant.Run` | app.py:130-136 | under any interleaving of the two stages, both queues drain and the chat service receives the prompts of the waiting questions and then those of the waiting utterances, in order, each answer matching its prompt |

## Left out

- Audio capture (`record_audio`, app.py:66-79) is not modelled beyond its
  hand-off. Microphone access, voice-activity detection and the conversion
  of 16-bit samples to floats are represented by `Capture` taking an
  already finished utterance.
- The speech-to-text model is a parameter of the assistant (`transcribe`):
  a function from an utterance to its text. Loading it (app.py:128) is not
  modelled.
- The chat service call (`ask_chatgpt`, app.py:29-44) is a parameter
  (`chat`): a total function from a prompt to the text the reply stage
  receives. The HTTP request, its payload (model, `max_tokens`,
  `temperature`) and the network are not modelled.
- Failures that end a stage are not modelled; in the model no stage ever
  fails.
  - `ask_chatgpt` turns only request errors into an error text
    (app.py:42-44).
  - A response without the expected fields makes the lookup at app.py:41
    raise a `KeyError`, `IndexError` or `AttributeError`, which that
    handler does not catch. `reply` calls `ask_chatgpt` without a `try`
    (app.py:109), so the exception ends the reply thread and the result
    queue is never drained again.
  - An exception from the transcriber (app.py:85) likewise ends the
    transcription thread.
  - `Assistant.Run`'s promise that both queues drain holds only for stages
    that never fail.
- `Assistant.Valid` gives one answer per prompt: `chat` is a function. The
  real request samples at temperature 0.7 (app.py:34), so the same prompt
  can get different answers.
- Speech synthesis and playback (`synthesize_speech`, app.py:47-63 and
  app.py:115-121) are not modelled. The answer handed to them is recorded
  in `answers`.
  - As written, synthesis always fails. `texttospeech` is never imported
    (app.py:1-13), so app.py:48 raises a `NameError` before the function's
    own `try` (app.py:56-63).
  - `reply` catches that error and prints it (app.py:120-121), so `play`
    (app.py:119) is never reached and no answer is ever spoken.
- Threads and the blocking `get`: each stage is a method that does one
  turn, and a turn on an empty queue does nothing. `Run` interleaves the
  two consuming stages arbitrarily until both queues are empty. A
  capture-stage thread running alongside, the idle main loop (app.py:138-139)
  and true parallelism are not modelled.
- Verbose logging and `print` output are not modelled.
- Case folding and whitespace are ASCII only. Python's `lower()`, `strip()`
  and `re.IGNORECASE` also act on non-ASCII letters and Unicode whitespace.
- Environment and credential loading (app.py:18-26) and the `warnings`
  configuration are not modelled.
