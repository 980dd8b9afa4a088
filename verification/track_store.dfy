/** The storage boundary of the tracks hook: rows read back are normalised, and create
    and update requests are built with the two lists replaced by their JSON text. The
    backend calls themselves are not modelled; a read is given the response it received. */
module TrackStore {
  import opened Wrappers
  import opened Entities
  import opened Sequences

  /** `JSON.stringify(value)`, kept as an uninterpreted term: the model never looks at the
      characters of the text, only at which value it encodes. */
  datatype JsonText<T> = Stringified(value: T)

  /** A tracks row as the backend returns it: either list column may be null or missing. */
  datatype TrackRow = TrackRow(
    id: string,
    userId: string,
    unitName: string,
    vocabulary: Option<seq<VocabularyItem>>,
    grammarTopics: Option<seq<string>>,
    completion: int,
    createdAt: string,
    updatedAt: string)

  /** `{ ...track, vocabulary: track.vocabulary || [], grammar_topics: track.grammar_topics || [] }`:
      an absent list reads as empty, a present one passes through, and every other
      column is copied. */
  function Normalise(row: TrackRow): (t: Track)
    ensures t.vocabulary == row.vocabulary.GetOr([])
    ensures t.grammarTopics == row.grammarTopics.GetOr([])
    ensures (t.id, t.userId, t.unitName, t.completion, t.createdAt, t.updatedAt)
         == (row.id, row.userId, row.unitName, row.completion, row.createdAt, row.updatedAt)
  {
    Track(row.id, row.userId, row.unitName, row.vocabulary.GetOr([]), row.grammarTopics.GetOr([]),
          row.completion, row.createdAt, row.updatedAt)
  }

  /** The row a track would be stored as, with both lists present. */
  function Stored(t: Track): TrackRow {
    TrackRow(t.id, t.userId, t.unitName, Some(t.vocabulary), Some(t.grammarTopics),
             t.completion, t.createdAt, t.updatedAt)
  }

  /** Normalisation loses nothing from a row whose lists are present. */
  lemma NormaliseStored(t: Track)
    ensures Normalise(Stored(t)) == t
  {
  }

  /** `data.map(normalise)`: one track per row, in the order the backend sent them. */
  function NormaliseAll(rows: seq<TrackRow>): (ts: seq<Track>)
    ensures |ts| == |rows|
    ensures forall i :: 0 <= i < |rows| ==> ts[i] == Normalise(rows[i])
  {
    if rows == [] then [] else [Normalise(rows[0])] + NormaliseAll(rows[1..])
  }

  /** The state of the tracks query: disabled when nobody is signed in, otherwise the
      normalised rows or the failure the backend reported. */
  datatype TracksQuery = Disabled | Fetched(tracks: seq<Track>) | FetchFailed(message: string)

  /** The tracks read. Without a user the query is disabled (`enabled: !!user`) and the
      response is never consulted, because no request is made. */
  function ReadTracks(user: Option<string>, response: Result<seq<TrackRow>>): (q: TracksQuery)
    ensures user.None? <==> q.Disabled?
    ensures user.Some? && response.Success? ==> q == Fetched(NormaliseAll(response.value))
    ensures user.Some? && response.Failure? ==> q == FetchFailed(response.error)
  {
    match user
    case None => Disabled
    case Some(_) =>
      match response
      case Success(rows) => Fetched(NormaliseAll(rows))
      case Failure(e) => FetchFailed(e)
  }

  /** What a page sees: `const { data: tracks = [] } = useTracks()`. A query that is
      disabled, or whose first fetch failed, has no data, so the page falls back to the
      empty list. */
  function TracksShown(q: TracksQuery): (r: seq<Track>)
    ensures q.Fetched? ==> r == q.tracks
    ensures q.Disabled? || q.FetchFailed? ==> r == []
  {
    if q.Fetched? then q.tracks else []
  }

  /** A signed-out reader sees an empty list, whatever the backend would have answered. */
  lemma SignedOutSeesNothing(response: Result<seq<TrackRow>>)
    ensures TracksShown(ReadTracks(None, response)) == []
  {
  }

  /** A signed-in reader whose fetch succeeds sees one normalised track per row, in row
      order. */
  lemma SignedInSeesNormalisedRows(user: string, rows: seq<TrackRow>)
    ensures var shown := TracksShown(ReadTracks(Some(user), Success(rows)));
      && |shown| == |rows|
      && forall i :: 0 <= i < |rows| ==> shown[i] == Normalise(rows[i])
  {
  }

  /** `NewTrack`: a track without the columns the backend assigns. */
  datatype NewTrack = NewTrack(
    unitName: string,
    vocabulary: seq<VocabularyItem>,
    grammarTopics: seq<string>,
    completion: int)

  /** The insert payload: the track fields, the owner, and both lists as JSON text. */
  datatype TrackInsert = TrackInsert(
    unitName: string,
    userId: string,
    vocabulary: JsonText<seq<VocabularyItem>>,
    grammarTopics: JsonText<seq<string>>,
    completion: int)

  const NotAuthenticated := "Not authenticated"

  /** The create mutation: refused with "Not authenticated" before any insert when no user
      is signed in; otherwise the insert payload owned by that user. */
  function CreateTrack(user: Option<string>, t: NewTrack): (r: Result<TrackInsert>)
    ensures user.None? <==> r.Failure?
    ensures user.None? ==> r.error == NotAuthenticated
    ensures user.Some? ==> r.value.userId == user.value
    ensures user.Some? ==> r.value.vocabulary.value == t.vocabulary
    ensures user.Some? ==> r.value.grammarTopics.value == t.grammarTopics
    ensures user.Some? ==> r.value.unitName == t.unitName && r.value.completion == t.completion
  {
    match user
    case None => Failure(NotAuthenticated)
    case Some(uid) =>
      Success(TrackInsert(t.unitName, uid, Stringified(t.vocabulary), Stringified(t.grammarTopics), t.completion))
  }

  /** The update payload: every column an update names, with the lists as JSON text and
      no `id` column (the id selects the row instead). */
  datatype TrackUpdate = TrackUpdate(
    unitName: Option<string>,
    vocabulary: Option<JsonText<seq<VocabularyItem>>>,
    grammarTopics: Option<JsonText<seq<string>>>,
    completion: Option<int>)

  /** An update request: the row to update and what to write into it. */
  datatype UpdateRequest = UpdateRequest(id: string, data: TrackUpdate)

  /** The update mutation's payload. A list is encoded exactly when the patch names it
      (an empty array is still present); other columns are copied verbatim. */
  function UpdateTrack(p: TrackPatch): (r: UpdateRequest)
    ensures r.id == p.id
    ensures r.data.vocabulary.Some? <==> p.vocabulary.Some?
    ensures p.vocabulary.Some? ==> r.data.vocabulary.value.value == p.vocabulary.value
    ensures r.data.grammarTopics.Some? <==> p.grammarTopics.Some?
    ensures p.grammarTopics.Some? ==> r.data.grammarTopics.value.value == p.grammarTopics.value
    ensures r.data.unitName == p.unitName && r.data.completion == p.completion
  {
    var vocabulary := if p.vocabulary.Some? then Some(Stringified(p.vocabulary.value)) else None;
    var topics := if p.grammarTopics.Some? then Some(Stringified(p.grammarTopics.value)) else None;
    UpdateRequest(p.id, TrackUpdate(p.unitName, vocabulary, topics, p.completion))
  }
}
