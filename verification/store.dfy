/**
 * The meeting database of `database/db_manager.py`, as an abstract state over maps.
 *
 * Three tables matter to the core: `meetings` (transcript, summary and the JSON
 * `transcript_chunks` column), `meeting_embeddings` (one pickled matrix per meeting,
 * written with INSERT OR REPLACE) and `chat_history` (one row per exchange, read back
 * in timestamp order). SQLite itself, pickle and JSON are not modelled: a column holds
 * the value it was given.
 */
module MeetingStore {
  import opened Wrappers
  import Text

  /**
   * The `transcript_chunks` column: NULL until a summary is saved, then a JSON document.
   * The only writer stores a list of strings; `JsonNonList` stands for any other document.
   */
  datatype ChunkColumn = Null | JsonList(items: seq<string>) | JsonNonList

  /** A `meetings` row. `summary` is NULL (`None`) until `save_summary_to_db` runs. */
  datatype Meeting = Meeting(transcript: string, summary: Option<string>, chunks: ChunkColumn)

  /**
   * A `meeting_embeddings` row. The stored matrix is the encoder's image of `texts`,
   * row `i` encoding `texts[i]`; the encoder itself is not part of this model, so the
   * row is identified by the texts it encodes.
   */
  datatype EmbeddingRow = EmbeddingRow(texts: seq<string>)

  /** A `chat_history` row. */
  datatype ChatRow = ChatRow(meetingId: int, user: string, bot: string)

  /** One `{"user": ..., "bot": ...}` record of `get_chat_history`. */
  datatype ChatPair = ChatPair(user: string, bot: string)

  /** One `{"id": ..., "name": ...}` record of `get_meeting_ids`. */
  datatype MeetingEntry = MeetingEntry(id: int, name: string)

  /** The reply of `get_meeting_details`. */
  datatype Details =
    | Found(transcript: string, summary: Option<string>)
    | NotFound(status: int, error: string)

  /**
   * The database. `chats` is the `chat_history` table in insertion order; `nextId` is the
   * id SQLite hands to the next inserted meeting.
   */
  datatype Store = Store(
    meetings: map<int, Meeting>,
    embeddings: map<int, EmbeddingRow>,
    chats: seq<ChatRow>,
    nextId: int)

  /** SQLite row ids are positive and every existing meeting id is below the next one. */
  ghost predicate Valid(st: Store) {
    && st.nextId >= 1
    && forall id :: id in st.meetings ==> 1 <= id < st.nextId
  }

  /** `save_transcript_to_db`: inserts a meeting and returns its new id. */
  function SaveTranscript(st: Store, transcript: string): (res: (Store, int))
    requires Valid(st)
    ensures var (st', id) := res;
      && id !in st.meetings
      && id in st'.meetings && st'.meetings[id] == Meeting(transcript, None, Null)
      && st'.meetings.Keys == st.meetings.Keys + {id}
      && (forall other :: other in st.meetings ==> st'.meetings[other] == st.meetings[other])
      && st'.embeddings == st.embeddings && st'.chats == st.chats
      && Valid(st')
  {
    var id := st.nextId;
    (st.(meetings := st.meetings[id := Meeting(transcript, None, Null)], nextId := id + 1), id)
  }

  /**
   * `save_summary_to_db`: sets the summary and the JSON chunk list of an existing meeting
   * and answers True; answers False and changes nothing when the meeting does not exist.
   */
  function SaveSummary(st: Store, id: int, summary: string, chunks: seq<string>): (res: (bool, Store))
    ensures res.0 <==> id in st.meetings
    ensures !res.0 ==> res.1 == st
    ensures res.0 ==> var st' := res.1;
      && st'.meetings.Keys == st.meetings.Keys
      && st'.meetings[id] == st.meetings[id].(summary := Some(summary), chunks := JsonList(chunks))
      && (forall other :: other in st.meetings && other != id ==> st'.meetings[other] == st.meetings[other])
      && st'.embeddings == st.embeddings && st'.chats == st.chats && st'.nextId == st.nextId
  {
    if id in st.meetings then
      var m := st.meetings[id];
      (true, st.(meetings := st.meetings[id := m.(summary := Some(summary), chunks := JsonList(chunks))]))
    else
      (false, st)
  }

  /** The meeting ids in `lo .. hi-1`, ascending. */
  function IdsBetween(meetings: map<int, Meeting>, lo: int, hi: int): (r: seq<int>)
    ensures forall k :: 0 <= k < |r| ==> lo <= r[k] < hi && r[k] in meetings
    ensures forall id :: lo <= id < hi && id in meetings ==> id in r
    ensures forall i, j :: 0 <= i < j < |r| ==> r[i] < r[j]
    decreases hi - lo
  {
    if lo >= hi then []
    else if lo in meetings then [lo] + IdsBetween(meetings, lo + 1, hi)
    else IdsBetween(meetings, lo + 1, hi)
  }

  /** The display name `get_meeting_ids` gives a meeting. */
  function MeetingName(id: int): string {
    "Meeting " + Text.IntToString(id)
  }

  /** The records `get_meeting_ids` builds for the listed ids, one per id, named by `name`. */
  function Entries(ids: seq<int>, name: int -> string): (r: seq<MeetingEntry>)
    ensures |r| == |ids|
  {
    if |ids| == 0 then [] else [MeetingEntry(ids[0], name(ids[0]))] + Entries(ids[1..], name)
  }

  /** `get_meeting_ids`: one record per meeting, in ascending id (rowid) order. */
  function MeetingIds(st: Store): seq<MeetingEntry> {
    Entries(IdsBetween(st.meetings, 1, st.nextId), MeetingName)
  }

  lemma {:induction false} EntriesAt(ids: seq<int>, name: int -> string, k: nat)
    requires k < |ids|
    ensures Entries(ids, name)[k] == MeetingEntry(ids[k], name(ids[k]))
    decreases k
  {
    var rest := Entries(ids[1..], name);
    assert Entries(ids, name) == [MeetingEntry(ids[0], name(ids[0]))] + rest;
    if k > 0 {
      EntriesAt(ids[1..], name, k - 1);
      assert ids[1..][k - 1] == ids[k];
    }
  }

  /**
   * `get_meeting_ids` lists every meeting exactly once, in ascending id order, each named
   * `"Meeting <id>"`, and nothing else.
   */
  lemma MeetingIdsSpec(st: Store)
    requires Valid(st)
    ensures var r := MeetingIds(st);
      && (forall k :: 0 <= k < |r| ==> r[k].id in st.meetings && r[k].name == MeetingName(r[k].id))
      && (forall id :: id in st.meetings ==> exists k :: 0 <= k < |r| && r[k].id == id)
      && (forall i, j :: 0 <= i < j < |r| ==> r[i].id < r[j].id)
  {
    EntriesListing(st.meetings, st.nextId, MeetingName);
  }

  /** The listing over any naming: the ids `1 .. next-1` present in `meetings`, ascending. */
  lemma EntriesListing(meetings: map<int, Meeting>, next: int, name: int -> string)
    requires forall id :: id in meetings ==> 1 <= id < next
    ensures var r := Entries(IdsBetween(meetings, 1, next), name);
      && (forall k :: 0 <= k < |r| ==> r[k].id in meetings && r[k].name == name(r[k].id))
      && (forall id :: id in meetings ==> exists k :: 0 <= k < |r| && r[k].id == id)
      && (forall i, j :: 0 <= i < j < |r| ==> r[i].id < r[j].id)
  {
    var ids := IdsBetween(meetings, 1, next);
    var r := Entries(ids, name);
    forall k | 0 <= k < |r| ensures r[k].id in meetings && r[k].name == name(r[k].id) {
      EntriesAt(ids, name, k);
    }
    forall id | id in meetings ensures exists k :: 0 <= k < |r| && r[k].id == id {
      var k :| 0 <= k < |ids| && ids[k] == id;
      EntriesAt(ids, name, k);
    }
    forall i, j | 0 <= i < j < |r| ensures r[i].id < r[j].id {
      EntriesAt(ids, name, i);
      EntriesAt(ids, name, j);
    }
  }

  /** `get_meeting_details`: transcript and summary of an existing meeting, else a 404 error. */
  function MeetingDetails(st: Store, id: int): (r: Details)
    ensures id in st.meetings <==> r.Found?
    ensures r.Found? ==> r.transcript == st.meetings[id].transcript && r.summary == st.meetings[id].summary
    ensures r.NotFound? ==> r.status == 404 && r.error == "Meeting not found"
  {
    if id in st.meetings then Found(st.meetings[id].transcript, st.meetings[id].summary)
    else NotFound(404, "Meeting not found")
  }

  /**
   * `delete_meeting`: removes the meeting row. Rows of other tables that reference it are
   * left to the schema's cascade rules, which are not part of this model.
   */
  function DeleteMeeting(st: Store, id: int): (st': Store)
    ensures st'.meetings.Keys == st.meetings.Keys - {id}
    ensures forall other :: other in st'.meetings ==> st'.meetings[other] == st.meetings[other]
    ensures st'.embeddings == st.embeddings && st'.chats == st.chats && st'.nextId == st.nextId
  {
    st.(meetings := st.meetings - {id})
  }

  /** `load_faiss_index`, reduced to the row it reads: absent exactly when there is no embedding row. */
  function LoadEmbeddings(st: Store, id: int): (r: Option<EmbeddingRow>)
    ensures r.None? <==> id !in st.embeddings
    ensures r.Some? ==> r.value == st.embeddings[id]
  {
    if id in st.embeddings then Some(st.embeddings[id]) else None
  }

  /**
   * `save_chat_to_db`: appends one exchange to `chat_history` when the meeting exists and
   * skips the save otherwise.
   */
  function SaveChat(st: Store, id: int, user: string, bot: string): (st': Store)
    ensures id !in st.meetings ==> st' == st
    ensures id in st.meetings ==> st' == st.(chats := st.chats + [ChatRow(id, user, bot)])
  {
    if id in st.meetings then st.(chats := st.chats + [ChatRow(id, user, bot)]) else st
  }

  /** The exchanges of meeting `id` among `rows`, in row order. */
  function HistoryOf(rows: seq<ChatRow>, id: int): (r: seq<ChatPair>)
    ensures |r| <= |rows|
  {
    if |rows| == 0 then []
    else
      var last := rows[|rows| - 1];
      HistoryOf(rows[..|rows| - 1], id) + (if last.meetingId == id then [ChatPair(last.user, last.bot)] else [])
  }

  /** `get_chat_history`: the meeting's exchanges, oldest first. */
  function ChatHistory(st: Store, id: int): seq<ChatPair> {
    HistoryOf(st.chats, id)
  }

  /** Every operation keeps the store valid. */
  lemma OperationsPreserveValid(st: Store, id: int, text: string, summary: string, chunks: seq<string>, user: string, bot: string)
    requires Valid(st)
    ensures Valid(SaveTranscript(st, text).0)
    ensures Valid(SaveSummary(st, id, summary, chunks).1)
    ensures Valid(DeleteMeeting(st, id))
    ensures Valid(SaveChat(st, id, user, bot))
  {
  }

  /** Saving a chat appends to that meeting's history and leaves every other history alone. */
  lemma SaveChatHistory(st: Store, id: int, user: string, bot: string, other: int)
    ensures ChatHistory(SaveChat(st, id, user, bot), other)
      == ChatHistory(st, other) + (if other == id && id in st.meetings then [ChatPair(user, bot)] else [])
  {
    if id in st.meetings {
      var rows := st.chats + [ChatRow(id, user, bot)];
      assert rows[..|rows| - 1] == st.chats;
    }
  }

  /** Once a meeting is deleted its details are reported as not found. */
  lemma DeletedMeetingNotFound(st: Store, id: int)
    ensures MeetingDetails(DeleteMeeting(st, id), id) == NotFound(404, "Meeting not found")
  {
  }

  /** A new transcript is listed and readable under the id it was given. */
  lemma SavedTranscriptReadable(st: Store, transcript: string)
    requires Valid(st)
    ensures var (st', id) := SaveTranscript(st, transcript);
      && MeetingDetails(st', id) == Found(transcript, None)
      && (exists k :: 0 <= k < |MeetingIds(st')| && MeetingIds(st')[k] == MeetingEntry(id, MeetingName(id)))
  {
    var (st', id) := SaveTranscript(st, transcript);
    OperationsPreserveValid(st, id, transcript, "", [], "", "");
    MeetingIdsSpec(st');
    var ids := MeetingIds(st');
    var k :| 0 <= k < |ids| && ids[k].id == id;
    assert ids[k] == MeetingEntry(id, MeetingName(id));
  }
}
