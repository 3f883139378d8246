/** `ChatGPT.summarise`: a long text is cut into fixed-size chunks, each
    chunk is sent after the prompt, refusals are dropped and the remaining
    answers are joined with newlines. The answer to the k-th request is the
    oracle `respond(k, request)` (a fast-mode `run_all_gpt` without a user). */
module Summarise {
  import opened Base
  import opened Text

  /** The size of every chunk but the last. */
  const ChunkSize := 3950

  /** The text cut, from the start, into consecutive pieces of 3950
      characters; the last piece holds what remains. */
  function Chunks(text: string): (r: seq<string>)
    ensures |r| == 0 <==> |text| == 0
  {
    seq((|text| + ChunkSize - 1) / ChunkSize,
        k requires 0 <= k < (|text| + ChunkSize - 1) / ChunkSize =>
          text[k * ChunkSize..Min((k + 1) * ChunkSize, |text|)])
  }

  /** A non-empty text's chunks are its first chunk followed by the chunks of
      the rest. */
  lemma ChunksStep(text: string)
    requires |text| > 0
    ensures Chunks(text) == [text[..Min(ChunkSize, |text|)]] + Chunks(text[Min(ChunkSize, |text|)..])
  {
    var n := Min(ChunkSize, |text|);
    var rest := text[n..];
    var a := Chunks(text);
    var b := [text[..n]] + Chunks(rest);
    assert |a| == |b|;
    forall k | 0 <= k < |a| ensures a[k] == b[k] {
      if k > 0 {
        assert b[k] == Chunks(rest)[k - 1];
        assert rest[(k - 1) * ChunkSize..Min(k * ChunkSize, |rest|)]
            == text[k * ChunkSize..Min((k + 1) * ChunkSize, |text|)];
      }
    }
  }

  /** The chunks cover the text: their concatenation is the text, every chunk
      is non-empty, and all but the last are full. */
  lemma {:induction false} ChunksCoverText(text: string)
    ensures Join(Chunks(text), "") == text
    ensures forall k :: 0 <= k < |Chunks(text)| ==> 0 < |Chunks(text)[k]| <= ChunkSize
    ensures forall k :: 0 <= k < |Chunks(text)| - 1 ==> |Chunks(text)[k]| == ChunkSize
    decreases |text|
  {
    if |text| > 0 {
      var n := Min(ChunkSize, |text|);
      ChunksStep(text);
      ChunksCoverText(text[n..]);
      assert text[..n] + text[n..] == text;
      if |text[n..]| > 0 {
        JoinCons(text[..n], Chunks(text[n..]), "");
        assert text[..n] + "" == text[..n];
      }
    }
  }

  /** The refusal openings whose answers are left out of a summary. */
  const RefusalPrefixes := ["I'm sorry", "Извините", "I cannot provide", "Сожалею"]

  predicate IsRefusal(answer: string) {
    exists p :: p in RefusalPrefixes && StartsWith(answer, p)
  }

  predicate Kept(answer: string) {
    !IsRefusal(answer)
  }

  /** How many chunks are sent: the loop counter is tested (`i > limit`)
      before each chunk, so at most `limit + 1` of them. */
  function Sent(chunkCount: nat, limit: int): (n: nat)
    ensures n <= chunkCount
    ensures limit < 0 ==> n == 0
    ensures limit >= 0 ==> n == Min(chunkCount, limit + 1)
  {
    Min(chunkCount, Max(limit + 1, 0))
  }

  /** The answers to a sequence of requests, in order. */
  function Answers(requests: seq<string>, respond: (nat, string) -> string): (r: seq<string>)
    ensures |r| == |requests|
  {
    seq(|requests|, k requires 0 <= k < |requests| => respond(k, requests[k]))
  }

  lemma AnswersAppend(requests: seq<string>, request: string, respond: (nat, string) -> string)
    ensures Answers(requests + [request], respond) == Answers(requests, respond) + [respond(|requests|, request)]
  {
  }

  /** `summarise(prompt, full_text, limit)`. It returns the summary and, for
      the statement of its contract, the requests it sent. */
  method Summarise(prompt: string, fullText: string, limit: int, respond: (nat, string) -> string)
    returns (summary: string, asked: seq<string>)
    ensures var chunks := Chunks(fullText);
      && |asked| == Sent(|chunks|, limit)
      && forall k :: 0 <= k < |asked| ==> asked[k] == prompt + chunks[k]
    ensures summary == Join(Filter(Kept, Answers(asked, respond)), "\n")
  {
    summary, asked := SummariseChunks(prompt, Chunks(fullText), limit, respond);
  }

  /** The loop of `summarise` over given chunks. */
  method SummariseChunks(prompt: string, chunks: seq<string>, limit: int, respond: (nat, string) -> string)
    returns (summary: string, asked: seq<string>)
    ensures |asked| == Sent(|chunks|, limit)
    ensures forall k :: 0 <= k < |asked| ==> asked[k] == prompt + chunks[k]
    ensures summary == Join(Filter(Kept, Answers(asked, respond)), "\n")
  {
    var responses: seq<string> := [];
    asked := [];
    var i := 0;
    while i < |chunks|
      invariant 0 <= i <= |chunks| && |asked| == i
      invariant i <= Max(limit + 1, 0)
      invariant forall k :: 0 <= k < i ==> asked[k] == prompt + chunks[k]
      invariant responses == Filter(Kept, Answers(asked, respond))
    {
      if i > limit {
        break;
      }
      var request := prompt + chunks[i];
      var response := respond(i, request);
      AnswersAppend(asked, request, respond);
      FilterAppend(Kept, Answers(asked, respond), [response]);
      FilterOne(Kept, response);
      asked := asked + [request];
      i := i + 1;
      if !Kept(response) {
        continue;
      }
      responses := responses + [response];
    }
    summary := Join(responses, "\n");
  }

  /** A summary is built from answers that are not refusals, each of which
      came back for one of the requests. */
  lemma SummaryHasNoRefusal(asked: seq<string>, respond: (nat, string) -> string)
    ensures var kept := Filter(Kept, Answers(asked, respond));
      forall k :: 0 <= k < |kept| ==>
        !IsRefusal(kept[k]) && exists j :: 0 <= j < |asked| && kept[k] == respond(j, asked[j])
  {
    var answers := Answers(asked, respond);
    var kept := Filter(Kept, answers);
    FilterKeeps(Kept, answers);
    forall k | 0 <= k < |kept|
      ensures exists j :: 0 <= j < |asked| && kept[k] == respond(j, asked[j])
    {
      var j :| 0 <= j < |answers| && answers[j] == kept[k];
    }
  }

  /** With a limit that reaches the last chunk, the requests carry the whole
      text: stripping the prompt and concatenating gives it back. */
  lemma WholeTextIsSent(prompt: string, fullText: string, limit: int, asked: seq<string>)
    requires var chunks := Chunks(fullText);
      && |asked| == Sent(|chunks|, limit)
      && (forall k :: 0 <= k < |asked| ==> asked[k] == prompt + chunks[k])
    requires limit + 1 >= |Chunks(fullText)|
    ensures Join(seq(|asked|, k requires 0 <= k < |asked| => asked[k][|prompt|..]), "") == fullText
  {
    var stripped := seq(|asked|, k requires 0 <= k < |asked| => asked[k][|prompt|..]);
    assert stripped == Chunks(fullText);
    ChunksCoverText(fullText);
  }
}
