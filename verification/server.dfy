/**
 * The request handlers of `server.py` that sit on the retrieval path: `/chat`
 * (`chat_endpoint`) and `/transcribe` (`transcribe_audio`).
 *
 * Flask's routing, JSON decoding and response objects are reduced to the values the
 * handlers look at and return. whisperx enters as the list of diarised segments it
 * produces, the encoder, FAISS and BM25 as the score rows `retrieve` would compute for the
 * message, and the language models as functions from prompt to generated text.
 */
module Server {
  import opened Wrappers
  import opened Text
  import opened MeetingStore
  import opened RagPipeline
  import opened RagModel
  import Summariser

  /** What `data.get('message', '')` finds: no key, a JSON string, or another JSON value. */
  datatype MessageField = MessageAbsent | MessageText(text: string) | MessageOther

  /**
   * What `int(data.get('meeting_id', None))` sees: no key or JSON null (both `None`), a
   * value `int()` converts (a number or a numeric string), or one it rejects.
   */
  datatype IdField = IdAbsent | IdNull | IdConvertible(value: int) | IdNotConvertible

  /** The request body: a JSON object, or anything `get_json(force=True)` cannot turn into one. */
  datatype ChatRequest = JsonObject(message: MessageField, meetingId: IdField) | NotAnObject

  /** The exception that ends a request in the handler's `except` branch. */
  datatype Fault = BadBody | MessageNotText | IdNotInt | RetrievalFailed

  /** The three replies of `chat_endpoint`. */
  datatype ChatResponse = Ok(reply: string) | BadRequest(reply: string) | ServerError(fault: Fault)

  /** The HTTP status of a reply. */
  function Status(r: ChatResponse): int {
    match r
    case Ok(_) => 200
    case BadRequest(_) => 400
    case ServerError(_) => 500
  }

  /** How many passages the chat endpoint asks `retrieve` for. */
  const ChatTopK: nat := 5

  /** The reply to a request without a usable message. */
  const MissingInput: string := "Please provide a message and select a meeting."

  /** `data.get('message', '').strip()`, or `None` when `.strip()` would raise. */
  function UserMessage(f: MessageField): (m: Option<string>)
    ensures f.MessageAbsent? ==> m == Some("")
    ensures f.MessageOther? <==> m.None?
    ensures f.MessageText? ==> m.Some? && IsStripOf(m.value, f.text, IsPySpace)
  {
    match f
    case MessageAbsent => Some("")
    case MessageText(s) => StripSpec(s); Some(Strip(s))
    case MessageOther => None
  }

  /** `int(data.get('meeting_id', None))`, or `None` when `int()` raises. */
  function MeetingIdOf(f: IdField): (id: Option<int>)
    ensures id.Some? <==> f.IdConvertible?
    ensures id.Some? ==> id.value == f.value
  {
    match f
    case IdConvertible(n) => Some(n)
    case _ => None
  }

  /** The `context` fields of the retrieved records in rank order. */
  function Contexts(hits: seq<Hit>): (cs: seq<string>)
    ensures |cs| == |hits|
    ensures forall k :: 0 <= k < |hits| ==> cs[k] == hits[k].context
  {
    seq(|hits|, k requires 0 <= k < |hits| => hits[k].context)
  }

  /** `"\n".join(extracted_contexts)`: every record carries a `context` key, so none is skipped. */
  function ContextString(hits: seq<Hit>): string {
    Join(Contexts(hits), "\n")
  }

  /** A character `strip(': ')` removes. */
  predicate IsColonOrSpace(c: char) {
    c == ':' || c == ' '
  }

  /** The word whose first occurrence starts the kept part of a reply. */
  const Speaker: string := "assistant"

  /** `reply.split("assistant", 1)[-1].strip(': ')` when the reply mentions `assistant`, else the reply. */
  function CleanReply(reply: string): (r: string)
    ensures !Contains(reply, Speaker) ==> r == reply
    ensures Contains(reply, Speaker) ==>
      IsStripOf(r, reply[IndexOf(reply, Speaker).value + |Speaker|..], IsColonOrSpace)
  {
    if Contains(reply, Speaker) then
      var (head, _, tail) := Partition(reply, Speaker);
      assert IndexOf(reply, Speaker) == Some(|head|) by {
        var i := IndexOf(reply, Speaker).value;
        assert !(i < |head|);
        assert !(|head| < i);
      }
      assert tail == reply[|head| + |Speaker|..];
      StripWithSpec(tail, IsColonOrSpace);
      StripWith(tail, IsColonOrSpace)
    else
      reply
  }

  /**
   * `chat_endpoint`: the reply and the database after the request. `similarities` and
   * `bm25` are the score rows `retrieve` computes for the message; `generate` is the chat
   * model.
   */
  function Chat(st: Store, req: ChatRequest, similarities: seq<real>, bm25: seq<real>, generate: string -> string)
    : (res: (ChatResponse, Store))
    ensures !res.0.Ok? ==> res.1 == st
    ensures req.NotAnObject? ==> res.0 == ServerError(BadBody)
    ensures req.JsonObject? && req.message.MessageOther? ==> res.0 == ServerError(MessageNotText)
    ensures req.JsonObject? && !req.message.MessageOther? && !req.meetingId.IdConvertible? ==>
      res.0 == ServerError(IdNotInt)
    ensures res.0.BadRequest? <==>
      && req.JsonObject? && req.meetingId.IdConvertible?
      && UserMessage(req.message) == Some("")
    ensures res.0.BadRequest? ==> res.0.reply == MissingInput
    ensures res.0.Ok? ==>
      && req.JsonObject? && req.meetingId.IdConvertible?
      && var m := UserMessage(req.message);
      && m.Some? && m.value != ""
      && var hits := Retrieve(st, req.meetingId.value, ChatTopK, similarities, bm25);
      && hits.Success?
      && res.0.reply == CleanReply(ChatWithModel(generate, m.value, ContextString(hits.value)))
      && res.1 == SaveChat(st, req.meetingId.value, m.value, res.0.reply)
  {
    match req
    case NotAnObject => (ServerError(BadBody), st)
    case JsonObject(messageField, idField) =>
      match UserMessage(messageField)
      case None => (ServerError(MessageNotText), st)
      case Some(message) =>
        match MeetingIdOf(idField)
        case None => (ServerError(IdNotInt), st)
        case Some(id) =>
          if message == "" then (BadRequest(MissingInput), st)
          else
            match Retrieve(st, id, ChatTopK, similarities, bm25)
            case Failure(_) => (ServerError(RetrievalFailed), st)
            case Success(hits) =>
              var reply := CleanReply(ChatWithModel(generate, message, ContextString(hits)));
              (Ok(reply), SaveChat(st, id, message, reply))
  }

  /**
   * A message that strips to nothing is refused with 400 before any retrieval, and the
   * database is unchanged, once the meeting id converts.
   */
  lemma BlankMessageRefused(st: Store, text: string, id: int, similarities: seq<real>, bm25: seq<real>, generate: string -> string)
    requires AllDropped(text, IsPySpace)
    ensures Chat(st, JsonObject(MessageText(text), IdConvertible(id)), similarities, bm25, generate)
      == (BadRequest(MissingInput), st)
  {
    StripSpec(text);
  }

  /**
   * Without a meeting id the `meeting_id is None` test is never reached: `int(None)`
   * raises first, so the request ends with 500 instead of the 400 reply.
   */
  lemma MissingIdIsServerError(st: Store, m: MessageField, similarities: seq<real>, bm25: seq<real>, generate: string -> string)
    requires !m.MessageOther?
    ensures Status(Chat(st, JsonObject(m, IdAbsent), similarities, bm25, generate).0) == 500
    ensures Status(Chat(st, JsonObject(m, IdNull), similarities, bm25, generate).0) == 500
  {
  }

  /**
   * A non-blank message about a meeting whose retrieval succeeds is answered with 200; the
   * exchange is appended to the meeting's chat history, and no other meeting's history
   * changes.
   */
  lemma ChatRecordsExchange(st: Store, text: string, id: int, similarities: seq<real>, bm25: seq<real>, generate: string -> string, other: int)
    requires Strip(text) != ""
    requires Retrieve(st, id, ChatTopK, similarities, bm25).Success?
    ensures var (resp, st') := Chat(st, JsonObject(MessageText(text), IdConvertible(id)), similarities, bm25, generate);
      && resp.Ok?
      && (other != id ==> ChatHistory(st', other) == ChatHistory(st, other))
      && (id in st.meetings ==> ChatHistory(st', id) == ChatHistory(st, id) + [ChatPair(Strip(text), resp.reply)])
  {
    var (resp, st') := Chat(st, JsonObject(MessageText(text), IdConvertible(id)), similarities, bm25, generate);
    SaveChatHistory(st, id, Strip(text), resp.reply, other);
    SaveChatHistory(st, id, Strip(text), resp.reply, id);
  }

  /**
   * The length of the context handed to the model: no passages give the empty string,
   * otherwise the passages plus one newline between each two of them.
   */
  lemma ContextLength(hits: seq<Hit>)
    ensures hits == [] ==> ContextString(hits) == ""
    ensures |hits| >= 1 ==> |ContextString(hits)| + 1 == Offset(Contexts(hits), 1, |hits|)
  {
    if |hits| >= 1 {
      JoinLength(Contexts(hits), "\n");
    }
  }

  /** Passage `k` of the context handed to the model sits at `Offset(Contexts(hits), 1, k)`. */
  lemma ContextPieces(hits: seq<Hit>)
    ensures forall k :: 0 <= k < |hits| ==> OccursAt(ContextString(hits), hits[k].context, Offset(Contexts(hits), 1, k))
  {
    JoinPieces(Contexts(hits), "\n");
  }

  /** A newline follows every passage of the context handed to the model but the last. */
  lemma ContextSeparators(hits: seq<Hit>)
    ensures forall k :: 0 <= k < |hits| - 1 ==> OccursAt(ContextString(hits), "\n", Offset(Contexts(hits), 1, k) + |hits[k].context|)
  {
    var cs := Contexts(hits);
    forall k | 0 <= k < |hits| - 1
      ensures OccursAt(ContextString(hits), "\n", Offset(cs, 1, k) + |hits[k].context|)
    {
      JoinSeparatorAt(cs, "\n", k);
      assert cs[k] == hits[k].context;
    }
  }

  /** One diarised segment: the speaker label whisperx assigned, if any, and the text. */
  datatype Segment = Segment(speaker: Option<string>, text: string)

  /** The label used for a segment without a speaker. */
  const UnknownSpeaker: string := "Unknown"

  /** `f"{speaker}: {text}"` with the speaker defaulting to `"Unknown"`. */
  function SpeakerLine(seg: Segment): (line: string)
    ensures var who := seg.speaker.GetOr(UnknownSpeaker);
      && |line| == |who| + 2 + |seg.text|
      && line[..|who|] == who
      && line[|who|..|who| + 2] == ": "
      && line[|who| + 2..] == seg.text
  {
    seg.speaker.GetOr(UnknownSpeaker) + ": " + seg.text
  }

  /** The `conversation` list: one line per segment, in segment order. */
  function Conversation(segs: seq<Segment>): (lines: seq<string>)
    ensures |lines| == |segs|
    ensures forall k :: 0 <= k < |segs| ==> lines[k] == SpeakerLine(segs[k])
  {
    seq(|segs|, k requires 0 <= k < |segs| => SpeakerLine(segs[k]))
  }

  /** `"\n".join(conversation)`. */
  function TranscriptText(segs: seq<Segment>): string {
    Join(Conversation(segs), "\n")
  }

  /** No line break inside a segment's speaker label or text. */
  predicate SingleLine(seg: Segment) {
    '\n' !in seg.speaker.GetOr(UnknownSpeaker) && '\n' !in seg.text
  }

  /** Splitting the transcript at line breaks gives back one line per segment. */
  lemma TranscriptLines(segs: seq<Segment>)
    requires |segs| >= 1
    requires forall k :: 0 <= k < |segs| ==> SingleLine(segs[k])
    ensures SplitOn(TranscriptText(segs), '\n') == Conversation(segs)
  {
    var lines := Conversation(segs);
    forall k | 0 <= k < |lines| ensures '\n' !in lines[k] {
      var who := segs[k].speaker.GetOr(UnknownSpeaker);
      assert lines[k] == who + ": " + segs[k].text;
    }
    SplitOnJoin(lines, '\n');
  }

  /** The JSON reply of `/transcribe`. */
  datatype TranscribeReply = TranscribeReply(message: string, meetingId: int, conversation: seq<string>)

  /**
   * `transcribe_audio` from the diarised segments on: saves the transcript, summarises it,
   * saves summary and chunk records, and embeds the records.
   */
  function Transcribe(st: Store, segs: seq<Segment>, splitChunks: string -> seq<string>,
                      splitFinal: string -> seq<string>, generate: string -> string)
    : (res: (TranscribeReply, Store))
    requires Valid(st)
    ensures var (reply, st') := res;
      && Valid(st')
      && reply.meetingId !in st.meetings
      && reply.message == "Transcript saved successfully"
      && reply.conversation == Conversation(segs)
  {
    var text := TranscriptText(segs);
    var (st1, id) := SaveTranscript(st, text);
    var summarised := Summariser.SummarisePipeline(text, splitChunks, splitFinal, generate);
    var (_, st2) := SaveSummary(st1, id, summarised.finalSummary, summarised.records);
    var st3 := StoreEmbeddings(st2, id, PyList(AsPyStrings(summarised.records)));
    OperationsPreserveValid(st1, id, text, summarised.finalSummary, summarised.records, "", "");
    (TranscribeReply("Transcript saved successfully", id, Conversation(segs)), st3)
  }

  /**
   * After `/transcribe`, the meeting is readable with its transcript and summary, every
   * chunk record is embedded, and chat retrieval over it returns
   * `min(top_k, number of records)` passages.
   */
  lemma TranscribeThenRetrieve(st: Store, segs: seq<Segment>, splitChunks: string -> seq<string>,
                               splitFinal: string -> seq<string>, generate: string -> string,
                               topK: nat, similarities: seq<real>, bm25: seq<real>)
    requires Valid(st)
    ensures var (reply, st') := Transcribe(st, segs, splitChunks, splitFinal, generate);
      var id := reply.meetingId;
      var summarised := Summariser.SummarisePipeline(TranscriptText(segs), splitChunks, splitFinal, generate);
      && MeetingDetails(st', id) == Found(TranscriptText(segs), Some(summarised.finalSummary))
      && st'.meetings[id].chunks == JsonList(summarised.records)
      && (summarised.records != [] ==> st'.embeddings[id] == EmbeddingRow(summarised.records))
      && (summarised.records != [] ==>
            var r := Retrieve(st', id, topK, similarities, bm25);
            r.Success? && |r.value| == Ranking.Min(topK, |summarised.records|))
  {
    var text := TranscriptText(segs);
    var summarised := Summariser.SummarisePipeline(text, splitChunks, splitFinal, generate);
    AllUsable(summarised.records);
  }
}
