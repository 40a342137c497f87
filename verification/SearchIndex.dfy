/** internal/pindoc/indexstate: the search index as a cache of embeddings, refreshed
    with a provider that may fail, over content that keeps changing. */
module SearchIndex {
  import opened Wrappers
  import opened Hashing
  import Chunks = BodyChunks

  datatype Info = Info(name: string, modelId: string, dimension: int)

  type Vector = seq<real>

  /** One provider.Embed call: an error, or some vectors (none for a nil result). */
  datatype Answer = CallFailed | Vectors(vectors: seq<Vector>)

  /** What the provider answers to its n-th call of one refresh. */
  type Reply = (nat, seq<string>) -> Answer

  datatype Kind = TitleChunk | BodyChunk

  datatype PreparedChunk = PreparedChunk(
    kind: Kind, index: int, heading: Option<string>, start: int, end: int, text: string, vector: Vector)

  datatype PrepareError =
    | BadDimension
    | EmbedFailed(call: nat)
    | WrongCount(call: nat, got: nat)
    | WrongDimension(call: nat)

  datatype Status = Unknown | Indexed | Failed

  datatype State = State(
    revision: int, bodyHash: Digest, titleHash: Digest, modelName: string, modelId: string, modelDim: int,
    status: Status, attempts: nat, lastError: Option<PrepareError>)

  datatype Input = Input(revision: int, title: string, body: string)

  datatype StoredChunk = StoredChunk(chunk: PreparedChunk, modelName: string, modelDim: int)

  /** The chunk rows and the index-state row of one artifact. */
  datatype Entry = Entry(chunks: seq<StoredChunk>, state: Option<State>)

  const BODY_CHUNK_SIZE := 600
  const BATCH := 32

  // ----- Classify -----------------------------------------------------------------

  datatype Effective = EffUnknown | EffIndexed | EffFailed | EffStale

  function Classify(title: string, body: string, state: Option<State>, provider: Info): Effective {
    match state
    case None => EffUnknown
    case Some(s) =>
      if s.status == Failed then EffFailed
      else if s.status != Indexed then EffUnknown
      else if s.titleHash != Sha256(title) || s.bodyHash != Sha256(body) then EffStale
      else if s.modelName != provider.name || s.modelId != provider.modelId || s.modelDim != provider.dimension then
        EffStale
      else EffIndexed
  }

  // ----- prepare ------------------------------------------------------------------

  /** PadTo768: zero-padded or cut to the column's width. */
  function PadTo768(v: Vector): (r: Vector)
    ensures |r| == 768
  {
    seq(768, i requires 0 <= i < 768 => if i < |v| then v[i] else 0.0)
  }

  predicate Fits(info: Info, v: Vector) {
    |v| == info.dimension
  }

  /** An answer the checks accept: the right number of vectors, each of the declared dimension. */
  predicate Acceptable(info: Info, answer: Answer, count: nat) {
    answer.Vectors? && |answer.vectors| == count && forall i :: 0 <= i < count ==> Fits(info, answer.vectors[i])
  }

  function Texts(chunks: seq<Chunks.Chunk>): (r: seq<string>)
    ensures |r| == |chunks| && forall i :: 0 <= i < |chunks| ==> r[i] == chunks[i].text
  {
    seq(|chunks|, i requires 0 <= i < |chunks| => chunks[i].text)
  }

  /** The texts of body batch b. */
  function BatchTexts(chunks: seq<Chunks.Chunk>, b: nat): seq<string>
    requires b * BATCH <= |chunks|
  {
    Texts(chunks[b * BATCH..if (b + 1) * BATCH < |chunks| then (b + 1) * BATCH else |chunks|])
  }

  /** Every answer of a whole prepare passes the checks: the title's and each batch's. */
  ghost predicate AllAcceptable(info: Info, reply: Reply, title: string, chunks: seq<Chunks.Chunk>) {
    Acceptable(info, reply(0, [title]), 1) && BatchesAcceptable(info, reply, chunks, |chunks|)
  }

  /** The provider embeds text by text: whatever the batch, an answer that passes the
      checks gives each text its own vector. */
  ghost predicate TextByText(info: Info, embed: string -> Vector, reply: Reply) {
    forall call: nat, texts: seq<string> :: Acceptable(info, reply(call, texts), |texts|) ==>
      forall i :: 0 <= i < |texts| ==> reply(call, texts).vectors[i] == embed(texts[i])
  }

  function TitleRow(embed: string -> Vector, title: string): PreparedChunk {
    PreparedChunk(TitleChunk, 0, None, 0, 0, title, PadTo768(embed(title)))
  }

  function BodyRow(embed: string -> Vector, c: Chunks.Chunk): PreparedChunk {
    var heading := if c.heading == "" then None else Some(c.heading);
    PreparedChunk(BodyChunk, c.index, heading, c.start, c.end, c.text, PadTo768(embed(c.text)))
  }

  function BodyRows(embed: string -> Vector, chunks: seq<Chunks.Chunk>): (r: seq<PreparedChunk>)
    ensures |r| == |chunks| && forall i :: 0 <= i < |chunks| ==> r[i] == BodyRow(embed, chunks[i])
  {
    seq(|chunks|, i requires 0 <= i < |chunks| => BodyRow(embed, chunks[i]))
  }

  /** The rows of embedding each text alone: the title, then the body chunks in order. */
  function OneByOne(embed: string -> Vector, title: string, body: string): seq<PreparedChunk> {
    [TitleRow(embed, title)] + BodyRows(embed, Chunks.ChunksOf(title, body, BODY_CHUNK_SIZE))
  }

  function CheckAnswer(info: Info, call: nat, answer: Answer, count: nat): (r: Option<PrepareError>)
    ensures r.None? <==> Acceptable(info, answer, count)
  {
    match answer
    case CallFailed => Some(EmbedFailed(call))
    case Vectors(vs) =>
      if |vs| != count then Some(WrongCount(call, |vs|))
      else if exists i :: 0 <= i < |vs| && !Fits(info, vs[i]) then Some(WrongDimension(call))
      else None
  }

  /** prepare: batching by 32 changes nothing, and one bad answer anywhere fails it all. */
  method Prepare(info: Info, reply: Reply, title: string, body: string, ghost embed: string -> Vector)
    returns (r: Result<seq<PreparedChunk>, PrepareError>)
    requires TextByText(info, embed, reply)
    ensures r.Ok? <==>
            info.dimension > 0 && AllAcceptable(info, reply, title, Chunks.ChunksOf(title, body, BODY_CHUNK_SIZE))
    ensures r.Ok? ==> r.value == OneByOne(embed, title, body)
  {
    if info.dimension <= 0 {
      return Err(BadDimension);
    }
    var titleAnswer := reply(0, [title]);
    var problem := CheckAnswer(info, 0, titleAnswer, 1);
    if problem.Some? {
      return Err(problem.value);
    }
    var prepared := [PreparedChunk(TitleChunk, 0, None, 0, 0, title, PadTo768(titleAnswer.vectors[0]))];
    assert titleAnswer.vectors[0] == embed([title][0]);

    var chunks := Chunks.ChunkBody(title, body, BODY_CHUNK_SIZE);
    var rows := PrepareBody(info, reply, chunks, embed);
    if rows.Err? {
      return Err(rows.error);
    }
    r := Ok(prepared + rows.value);
  }

  /** The body batches that cover the first n chunks were all answered acceptably. */
  ghost predicate BatchesAcceptable(info: Info, reply: Reply, chunks: seq<Chunks.Chunk>, n: nat) {
    forall b: nat :: b < n && b * BATCH < |chunks| ==>
      Acceptable(info, reply(b + 1, BatchTexts(chunks, b)), |BatchTexts(chunks, b)|)
  }

  /** The batch loop of prepare. */
  method PrepareBody(info: Info, reply: Reply, chunks: seq<Chunks.Chunk>, ghost embed: string -> Vector)
    returns (r: Result<seq<PreparedChunk>, PrepareError>)
    requires TextByText(info, embed, reply)
    ensures r.Ok? <==> BatchesAcceptable(info, reply, chunks, |chunks|)
    ensures r.Ok? ==> r.value == BodyRows(embed, chunks)
  {
    var prepared: seq<PreparedChunk> := [];
    var b, low := 0, 0;
    while low < |chunks|
      invariant 0 <= low <= |chunks| && (low == b * BATCH || (low == |chunks| && low <= b * BATCH)) && b <= low
      invariant BatchesAcceptable(info, reply, chunks, b)
      invariant prepared == BodyRows(embed, chunks[..low])
    {
      var high := Min(low + BATCH, |chunks|);
      var texts := BatchTexts(chunks, b);
      assert texts == Texts(chunks[low..high]);
      var answer := reply(b + 1, texts);
      var problem := CheckAnswer(info, b + 1, answer, |texts|);
      if problem.Some? {
        return Err(problem.value);
      }
      BatchVectors(info, reply, embed, b + 1, texts);
      var rows := AppendBatch(chunks[low..high], answer.vectors, embed);
      RowsSplit(embed, chunks, low, high);
      prepared := prepared + rows;
      b, low := b + 1, high;
    }
    assert chunks[..|chunks|] == chunks;
    r := Ok(prepared);
  }

  lemma BatchVectors(info: Info, reply: Reply, embed: string -> Vector, call: nat, texts: seq<string>)
    requires TextByText(info, embed, reply) && Acceptable(info, reply(call, texts), |texts|)
    ensures forall i :: 0 <= i < |texts| ==> reply(call, texts).vectors[i] == embed(texts[i])
  {
  }

  lemma RowsSplit(embed: string -> Vector, chunks: seq<Chunks.Chunk>, low: nat, high: nat)
    requires low <= high <= |chunks|
    ensures BodyRows(embed, chunks[..high]) == BodyRows(embed, chunks[..low]) + BodyRows(embed, chunks[low..high])
  {
    assert chunks[..high] == chunks[..low] + chunks[low..high];
  }

  function Min(a: int, b: int): int {
    if a < b then a else b
  }

  /** One batch's rows, chunk by chunk. */
  method AppendBatch(chunks: seq<Chunks.Chunk>, vectors: seq<Vector>, ghost embed: string -> Vector)
      returns (rows: seq<PreparedChunk>)
    requires |vectors| == |chunks| && forall i :: 0 <= i < |chunks| ==> vectors[i] == embed(chunks[i].text)
    ensures rows == BodyRows(embed, chunks)
  {
    rows := [];
    for i := 0 to |chunks|
      invariant |rows| == i && forall k :: 0 <= k < i ==> rows[k] == BodyRow(embed, chunks[k])
    {
      var c := chunks[i];
      var heading := if c.heading == "" then None else Some(c.heading);
      rows := rows + [PreparedChunk(BodyChunk, c.index, heading, c.start, c.end, c.text, PadTo768(vectors[i]))];
    }
  }

  // ----- the transactions ----------------------------------------------------------

  function Attempts(e: Entry): nat {
    if e.state.Some? then e.state.value.attempts else 0
  }

  function StoreRows(info: Info, rows: seq<PreparedChunk>): (r: seq<StoredChunk>)
    ensures |r| == |rows| && forall i :: 0 <= i < |rows| ==>
            r[i] == StoredChunk(rows[i], info.name + ":" + info.modelId, info.dimension)
  {
    seq(|rows|, i requires 0 <= i < |rows| => StoredChunk(rows[i], info.name + ":" + info.modelId, info.dimension))
  }

  /** Refresh's transaction, given what prepare returned: replace, or markFailed. */
  function Refreshed(e: Entry, info: Info, input: Input, prepared: Result<seq<PreparedChunk>, PrepareError>): Entry {
    match prepared
    case Ok(rows) =>
      Entry(StoreRows(info, rows),
            Some(State(input.revision, Sha256(input.body), Sha256(input.title), info.name, info.modelId, info.dimension,
              Indexed, Attempts(e) + 1, None)))
    case Err(error) =>
      Entry(e.chunks,
            Some(State(input.revision, Sha256(input.body), Sha256(input.title), info.name, info.modelId, info.dimension,
              Failed, Attempts(e) + 1, Some(error))))
  }

  function MarkedUnknown(e: Entry, input: Input): Entry {
    Entry(e.chunks,
      Some(State(input.revision, Sha256(input.body), Sha256(input.title), "", "", 0, Unknown, Attempts(e), None)))
  }

  // ----- what is stored, number by number -------------------------------------------

  /** Each row's vector holds, place by place, what the provider computed for the row's own
      text, and zeros behind that. */
  ghost predicate Stored(rows: seq<StoredChunk>, embed: string -> Vector) {
    forall k :: 0 <= k < |rows| ==> Holds(rows[k].chunk.vector, embed(rows[k].chunk.text))
  }

  ghost predicate Holds(stored: Vector, computed: Vector) {
    && |stored| == 768
    && (forall i :: 0 <= i < 768 && i < |computed| ==> stored[i] == computed[i])
    && (forall i :: |computed| <= i < 768 ==> stored[i] == 0.0)
  }

  ghost predicate DimensionsFit(rows: seq<StoredChunk>, info: Info, embed: string -> Vector) {
    forall k :: 0 <= k < |rows| ==> |embed(rows[k].chunk.text)| == info.dimension
  }

  lemma StoredNumbers(info: Info, embed: string -> Vector, title: string, body: string)
    ensures Stored(StoreRows(info, OneByOne(embed, title, body)), embed)
  {
  }

  /** What stands behind an accepted answer is of the provider's dimension. */
  lemma AcceptedFit(info: Info, reply: Reply, embed: string -> Vector, title: string, body: string)
    requires TextByText(info, embed, reply)
    requires AllAcceptable(info, reply, title, Chunks.ChunksOf(title, body, BODY_CHUNK_SIZE))
    ensures DimensionsFit(StoreRows(info, OneByOne(embed, title, body)), info, embed)
  {
    var chunks := Chunks.ChunksOf(title, body, BODY_CHUNK_SIZE);
    var rows := StoreRows(info, OneByOne(embed, title, body));
    forall k | 0 <= k < |rows| ensures |embed(rows[k].chunk.text)| == info.dimension {
      if k == 0 {
        BatchVectors(info, reply, embed, 0, [title]);
        assert reply(0, [title]).vectors[0] == embed([title][0]);
      } else {
        ChunkFits(info, reply, embed, chunks, k - 1);
      }
    }
  }

  lemma ChunkFits(info: Info, reply: Reply, embed: string -> Vector, chunks: seq<Chunks.Chunk>, k: nat)
    requires TextByText(info, embed, reply) && BatchesAcceptable(info, reply, chunks, |chunks|) && k < |chunks|
    ensures |embed(chunks[k].text)| == info.dimension
  {
    var b: nat, i := k / BATCH, k % BATCH;
    assert b * BATCH + i == k && b <= k;
    var texts := BatchTexts(chunks, b);
    BatchVectors(info, reply, embed, b + 1, texts);
    assert texts[i] == chunks[k].text;
    assert Fits(info, reply(b + 1, texts).vectors[i]);
  }

  /** With a dimension the column has room for, texts with different vectors are stored differently. */
  lemma DifferentVectorsDiffer(a: Vector, b: Vector, storedA: Vector, storedB: Vector)
    requires |a| == |b| <= 768 && Holds(storedA, a) && Holds(storedB, b)
    ensures storedA == storedB <==> a == b
  {
    if storedA == storedB {
      forall i | 0 <= i < |a| ensures a[i] == b[i] {
        assert storedA[i] == storedB[i];
      }
    }
  }

  /** The rows: the title alone, then every chunk as it is, under the model's name. */
  lemma RowsAre(info: Info, embed: string -> Vector, title: string, body: string)
    ensures var rows, chunks := StoreRows(info, OneByOne(embed, title, body)), Chunks.ChunksOf(title, body, 600);
            && |rows| == 1 + |chunks|
            && (forall k :: 0 <= k < |rows| ==>
                  rows[k].modelName == info.name + ":" + info.modelId && rows[k].modelDim == info.dimension)
            && (var c := rows[0].chunk;
               c.kind == TitleChunk && c.index == 0 && c.heading == None && c.start == 0 == c.end
                                        && c.text == title)
            && forall k :: 0 <= k < |chunks| ==> IsRowOf(rows[k + 1].chunk, chunks[k])
  {
    var rows, chunks := StoreRows(info, OneByOne(embed, title, body)), Chunks.ChunksOf(title, body, 600);
    forall k | 0 <= k < |chunks| ensures IsRowOf(rows[k + 1].chunk, chunks[k]) {
      assert rows[k + 1].chunk == BodyRow(embed, chunks[k]);
    }
  }

  predicate IsRowOf(row: PreparedChunk, c: Chunks.Chunk) {
    && row.kind == BodyChunk && row.index == c.index && row.start == c.start && row.end == c.end && row.text == c.text
    && (if c.heading == "" then row.heading == None else row.heading == Some(c.heading))
  }

  /** The calls a refresh makes: the title, then 32 chunks at a time, in order. */
  lemma BatchesAre(chunks: seq<Chunks.Chunk>, b: nat)
    requires 32 * b < |chunks|
    ensures var texts := BatchTexts(chunks, b);
            && |texts| == (if 32 * b + 32 <= |chunks| then 32 else |chunks| - 32 * b)
            && forall i :: 0 <= i < |texts| ==> texts[i] == chunks[32 * b + i].text
  {
  }

  /** An answer counts if it has a vector for each text, all of the provider's dimension. */
  lemma AcceptedWhen(info: Info, answer: Answer, count: nat)
    ensures Acceptable(info, answer, count) <==>
            answer.Vectors? && |answer.vectors| == count && forall i :: 0 <= i < count ==>
              |answer.vectors[i]| == info.dimension
    ensures CheckAnswer(info, 0, answer, count).None? <==> Acceptable(info, answer, count)
  {
    if Acceptable(info, answer, count) {
      assert forall i :: 0 <= i < count ==> Fits(info, answer.vectors[i]);
    } else if answer.Vectors? && |answer.vectors| == count {
      var i :| 0 <= i < count && !Fits(info, answer.vectors[i]);
    }
  }

  /** The state a refresh leaves, and a mark. */
  lemma StateAfter(e: Entry, info: Info, input: Input, prepared: Result<seq<PreparedChunk>, PrepareError>)
    ensures var s := Refreshed(e, info, input, prepared).state.value;
            && s.revision == input.revision && s.bodyHash == Sha256(input.body) && s.titleHash == Sha256(input.title)
            && s.modelName == info.name && s.modelId == info.modelId && s.modelDim == info.dimension
            && s.attempts == 1 + (if e.state.Some? then e.state.value.attempts else 0)
            && (prepared.Ok? ==> s.status == Indexed && s.lastError == None)
            && (prepared.Err? ==> s.status == Failed && s.lastError == Some(prepared.error))
    ensures prepared.Err? ==> Refreshed(e, info, input, prepared).chunks == e.chunks
    ensures var s := MarkedUnknown(e, input).state.value;
            && s.revision == input.revision && s.bodyHash == Sha256(input.body) && s.titleHash == Sha256(input.title)
            && s.modelName == "" == s.modelId && s.modelDim == 0 && s.status == Unknown && s.lastError == None
            && s.attempts == (if e.state.Some? then e.state.value.attempts else 0)
    ensures MarkedUnknown(e, input).chunks == e.chunks
  {
  }

  /** What Classify answers: unknown without a state or with that status, failed with that
      one, and of an indexed one whether everything it names is current. */
  lemma ClassifiedAs(title: string, body: string, state: Option<State>, provider: Info)
    ensures var r := Classify(title, body, state, provider);
            && (r == EffUnknown <==> state.None? || state.value.status == Unknown)
            && (r == EffFailed <==> state.Some? && state.value.status == Failed)
            && (r == EffIndexed <==>
                  && state.Some? && state.value.status == Indexed
                  && state.value.titleHash == Sha256(title) && state.value.bodyHash == Sha256(body)
                  && state.value.modelName == provider.name && state.value.modelId == provider.modelId
                  && state.value.modelDim == provider.dimension)
            && (r == EffStale <==> state.Some? && state.value.status == Indexed && r != EffIndexed)
  {
  }

  class IndexTables {
    var entries: map<string, Entry>

    constructor ()
      ensures entries == map[]
    {
      entries := map[];
    }

    function EntryOf(id: string): Entry
      reads this
    {
      if id in entries then entries[id] else Entry([], None)
    }

    /** Refresh: prepare everything first, touch the chunks only if all of it worked. */
    method Refresh(id: string, info: Info, reply: Reply, input: Input, ghost embed: string -> Vector)
        returns (r: Result<State, PrepareError>)
      requires TextByText(info, embed, reply)
      modifies this
      ensures r.Ok? <==>
              && info.dimension > 0
              && AllAcceptable(info, reply, input.title, Chunks.ChunksOf(input.title, input.body, BODY_CHUNK_SIZE))
      ensures var old' := old(EntryOf(id));
              && entries == old(entries)[id := EntryOf(id)]
              && (r.Ok? ==> EntryOf(id) == Refreshed(old', info, input, Ok(OneByOne(embed, input.title, input.body))))
              && (r.Ok? ==> EntryOf(id).state == Some(r.value))
              && (r.Err? ==> EntryOf(id) == Refreshed(old', info, input, Err(r.error)))
      ensures r.Ok? ==> Stored(EntryOf(id).chunks, embed) && DimensionsFit(EntryOf(id).chunks, info, embed)
    {
      var prepared := Prepare(info, reply, input.title, input.body, embed);
      if prepared.Ok? {
        StoredNumbers(info, embed, input.title, input.body);
        AcceptedFit(info, reply, embed, input.title, input.body);
      }
      var entry := Refreshed(EntryOf(id), info, input, prepared);
      entries := entries[id := entry];
      match prepared
      case Ok(_) => r := Ok(entry.state.value);
      case Err(error) => r := Err(error);
    }

    method MarkUnknown(id: string, input: Input)
      modifies this
      ensures entries == old(entries)[id := MarkedUnknown(old(EntryOf(id)), input)]
    {
      entries := entries[id := MarkedUnknown(EntryOf(id), input)];
    }
  }
}
