/**
 * The transcriptions hook of a media item: it finds or creates the media's
 * transcription record, generates a transcript (flattening the aligner's
 * timeline to sentences and words), or adopts one from the web API, and
 * reports transcription progress.  Fetches, the speech-to-text call and the
 * web API are parameters carrying what they resolved to; record updates are
 * collected in `sent` in the order they are requested.
 */
module Transcriptions {
  import opened Wrappers
  import opened Alignment
  import opened SeqFacts

  datatype Media = Media(id: string, mediaType: string, src: string, md5: string)

  datatype Transcription = Transcription(id: string, state: string, result: Option<AlignmentResult>, engine: string, model: string)

  /** The fields of an `EnjoyApp.transcriptions.update(id, ...)` request. */
  datatype TranscriptionUpdate = TranscriptionUpdate(id: string, state: string, result: Option<AlignmentResult>, engine: string, model: string)

  /** One transcript the web API returns for the media's md5. */
  datatype RemoteTranscript = RemoteTranscript(model: string, engine: string, result: Option<AlignmentResult>)

  /** What `transcribe` resolves to. */
  datatype Transcribed = Transcribed(engine: string, model: string, alignment: Option<AlignmentResult>)

  datatype TranscriptionError =
    | NotFound            // "Transcription not found"
    | NotAligned          // "Transcription not aligned"
    | TypeError           // a property read on `null` or `undefined`
    | Failed(message: string)  // a rejected call

  const Finished := "finished"

  const AllowedModels := ["base", "small", "medium", "large", "whisper-1"]

  // ---------------------------------------------------------------------
  // Flattening the aligner's timeline
  // ---------------------------------------------------------------------

  /** A sentence entry stays as it is; any other entry is replaced by its sub-timeline. */
  function Expand(e: TimelineEntry): seq<TimelineEntry> {
    if e.entryType == "sentence" then [e] else e.timeline
  }

  /** The timeline one level down: every entry expanded, in order. */
  function Flattened(entries: seq<TimelineEntry>): seq<TimelineEntry> {
    if |entries| == 0 then []
    else Flattened(entries[..|entries| - 1]) + Expand(entries[|entries| - 1])
  }

  /** How many entries an entry contributes: one for a sentence, its children otherwise. */
  function Weight(entries: seq<TimelineEntry>): nat {
    if |entries| == 0 then 0
    else Weight(entries[..|entries| - 1]) + (if entries[|entries| - 1].entryType == "sentence" then 1 else |entries[|entries| - 1].timeline|)
  }

  /**
   * The nested loops of `generateTranscription`: without an alignment
   * result the timeline is empty; otherwise it is the flattened timeline.
   */
  method FlattenTimeline(alignment: Option<AlignmentResult>) returns (timeline: seq<TimelineEntry>)
    ensures alignment.None? ==> timeline == []
    ensures alignment.Some? ==> timeline == Flattened(alignment.value.timeline)
  {
    timeline := [];
    if alignment.None? {
      return;
    }
    var entries := alignment.value.timeline;
    var i := 0;
    while i < |entries|
      invariant 0 <= i <= |entries|
      invariant timeline == Flattened(entries[..i])
    {
      var t := entries[i];
      assert entries[..i + 1][..i] == entries[..i];
      if t.entryType == "sentence" {
        timeline := timeline + [t];
      } else {
        var j := 0;
        while j < |t.timeline|
          invariant 0 <= j <= |t.timeline|
          invariant timeline == Flattened(entries[..i]) + t.timeline[..j]
        {
          assert t.timeline[..j + 1] == t.timeline[..j] + [t.timeline[j]];
          timeline := timeline + [t.timeline[j]];
          j := j + 1;
        }
        assert t.timeline[..j] == t.timeline;
      }
      i := i + 1;
    }
    assert entries[..i] == entries;
  }

  /** Flattening works piecewise. */
  lemma {:induction false} FlattenedAppend(a: seq<TimelineEntry>, b: seq<TimelineEntry>)
    ensures Flattened(a + b) == Flattened(a) + Flattened(b)
    decreases |b|
  {
    if |b| == 0 {
      AppendNil(a);
    } else {
      var n := |b|;
      DropLast(a, b);
      FlattenedAppend(a, b[..n - 1]);
      AppendAssoc(Flattened(a), Flattened(b[..n - 1]), Expand(b[n - 1]));
    }
  }

  /** The flattened length is one per sentence entry plus the children of every other entry. */
  lemma {:induction false} FlattenedLength(entries: seq<TimelineEntry>)
    ensures |Flattened(entries)| == Weight(entries)
  {
    if |entries| > 0 {
      FlattenedLength(entries[..|entries| - 1]);
    }
  }

  /** A timeline of sentences only is its own flattening. */
  lemma {:induction false} FlattenedSentences(entries: seq<TimelineEntry>)
    requires forall k :: 0 <= k < |entries| ==> entries[k].entryType == "sentence"
    ensures Flattened(entries) == entries
  {
    if |entries| > 0 {
      var n := |entries|;
      FlattenedSentences(entries[..n - 1]);
      assert entries == entries[..n - 1] + [entries[n - 1]];
    }
  }

  /**
   * Entry `k` contributes its block at position `|Flattened(entries[..k])|`:
   * a sentence is copied as it is, any other entry is replaced by its
   * children, which are not examined further.
   */
  lemma FlattenedAt(entries: seq<TimelineEntry>, k: nat)
    requires k < |entries|
    ensures Flattened(entries) == Flattened(entries[..k]) + Expand(entries[k]) + Flattened(entries[k + 1..])
  {
    var before, e, after := entries[..k], entries[k], entries[k + 1..];
    SplitAt(entries, k);
    FlattenedAppend(before + [e], after);
    FlattenedAppend(before, [e]);
    assert [e][..0] == [];
  }

  /** Sentence entries keep their order: an earlier sentence lands strictly before a later one. */
  lemma FlattenedKeepsSentenceOrder(entries: seq<TimelineEntry>, j: nat, k: nat)
    requires j < k < |entries|
    requires entries[j].entryType == "sentence" && entries[k].entryType == "sentence"
    ensures var f := Flattened(entries);
      var pj := |Flattened(entries[..j])|;
      var pk := |Flattened(entries[..k])|;
      pj < pk < |f| && f[pj] == entries[j] && f[pk] == entries[k]
  {
    FlattenedAt(entries, j);
    FlattenedAt(entries, k);
    FlattenedAt(entries[..k], j);
    assert entries[..k][..j] == entries[..j];
  }

  // ---------------------------------------------------------------------
  // Adopting a transcript from the web API
  // ---------------------------------------------------------------------

  /** `transcriptions.filter((t) => allowed.includes(t.model))?.[0]`. */
  function FirstAllowed(transcripts: seq<RemoteTranscript>): (r: Option<RemoteTranscript>)
    ensures r.Some? ==> r.value in transcripts && r.value.model in AllowedModels
    ensures r.Some? ==> exists k :: (0 <= k < |transcripts| && transcripts[k] == r.value
      && forall j :: 0 <= j < k ==> transcripts[j].model !in AllowedModels)
    ensures r.None? <==> forall t :: t in transcripts ==> t.model !in AllowedModels
  {
    if |transcripts| == 0 then None
    else if transcripts[0].model in AllowedModels then Some(transcripts[0])
    else
      var r := FirstAllowed(transcripts[1..]);
      if r.Some? then
        var k :| 0 <= k < |transcripts[1..]| && transcripts[1..][k] == r.value
          && forall j :: 0 <= j < k ==> transcripts[1..][j].model !in AllowedModels;
        assert transcripts[k + 1] == r.value;
        r
      else r
  }

  /**
   * The transcript `findTranscriptionFromWebApi` adopts: the first one of an
   * allowed model, rejected when there is none, when it has no result
   * (reading `result["transcript"]` throws) or when it is not aligned.  A
   * missing response counts as no transcripts.
   */
  function SelectRemote(response: Option<seq<RemoteTranscript>>): (r: Result<RemoteTranscript, TranscriptionError>)
    ensures r == Err(NotFound) <==> forall t :: t in response.GetOr([]) ==> t.model !in AllowedModels
    ensures r.Ok? <==> FirstAllowed(response.GetOr([])).Some? && IsAligned(FirstAllowed(response.GetOr([])).value.result)
    ensures r.Ok? ==> r.value == FirstAllowed(response.GetOr([])).value && r.value.model in AllowedModels && IsAligned(r.value.result)
    ensures r == Err(TypeError) <==> FirstAllowed(response.GetOr([])).Some? && FirstAllowed(response.GetOr([])).value.result.None?
    ensures r.Err? ==> r.error in {NotFound, NotAligned, TypeError}
  {
    var transcript := FirstAllowed(response.GetOr([]));
    if transcript.None? then Err(NotFound)
    else if transcript.value.result.None? then Err(TypeError)
    else if transcript.value.result.value.transcript == "" then Err(NotAligned)
    else Ok(transcript.value)
  }

  // ---------------------------------------------------------------------
  // The record the hook holds
  // ---------------------------------------------------------------------

  /** A fetched transcription whose result has no transcript has its result dropped. */
  function Normalized(t: Transcription): (r: Transcription)
    ensures r.result.Some? ==> IsAligned(r.result)
    ensures r.result.None? ==> !IsAligned(t.result)
    ensures IsAligned(t.result) ==> r == t
    ensures !IsAligned(t.result) ==> r == t.(result := None)
    ensures r == t.(result := r.result)
  {
    if t.result.Some? && t.result.value.transcript == "" then t.(result := None) else t
  }

  /** Normalising twice is normalising once. */
  lemma NormalizedIdempotent(t: Transcription)
    ensures Normalized(Normalized(t)) == Normalized(t)
  {
  }

  /** The transcription after `findOrCreateTranscription`: only a media without a held transcription fetches one. */
  function AfterFindOrCreate(media: Option<Media>, held: Option<Transcription>, fetched: Result<Transcription, string>): Option<Transcription> {
    if media.Some? && held.None? && fetched.Ok? then Some(Normalized(fetched.value)) else held
  }

  class TranscriptionsHook {
    var media: Option<Media>
    var transcription: Option<Transcription>
    var transcribing: bool
    var progress: real
    var sent: seq<TranscriptionUpdate>

    constructor (media: Option<Media>)
      ensures this.media == media && transcription == None && !transcribing && progress == 0.0 && sent == []
    {
      this.media := media;
      transcription := None;
      transcribing := false;
      progress := 0.0;
      sent := [];
    }

    /**
     * `findOrCreateTranscription`: a no-op without media or with a
     * transcription already held; a failed fetch changes nothing.
     */
    method FindOrCreate(fetched: Result<Transcription, string>)
      modifies this
      ensures transcription == AfterFindOrCreate(old(media), old(transcription), fetched)
      ensures old(media).None? || old(transcription).Some? || fetched.Err? ==> transcription == old(transcription)
      ensures transcription.Some? && transcription.value.result.Some? ==>
        old(transcription).Some? || IsAligned(transcription.value.result)
      ensures media == old(media) && transcribing == old(transcribing) && progress == old(progress) && sent == old(sent)
    {
      if media.None? { return; }
      if transcription.Some? { return; }
      if fetched.Err? { return; }
      var t := fetched.value;
      if t.result.Some? && t.result.value.transcript == "" {
        t := t.(result := None);
      }
      transcription := Some(t);
    }

    /**
     * `generateTranscription` up to the `transcribe` call: a no-op while
     * transcribing; otherwise a missing transcription is found or created,
     * and transcribing starts from zero progress.  `held` is the
     * transcription the call goes on to use, the one it started with.
     */
    method StartGenerate(fetched: Result<Transcription, string>) returns (started: bool, held: Option<Transcription>)
      modifies this
      ensures started <==> !old(transcribing)
      ensures !started ==> unchanged(this)
      ensures started ==>
        && held == old(transcription) && transcribing && progress == 0.0
        && transcription == AfterFindOrCreate(old(media), old(transcription), fetched)
        && media == old(media) && sent == old(sent)
    {
      if transcribing {
        return false, None;
      }
      held := transcription;
      if transcription.None? {
        FindOrCreate(fetched);
      }
      transcribing := true;
      progress := 0.0;
      started := true;
    }

    /**
     * `generateTranscription` after `transcribe` settles: the flattened
     * timeline and the transcript are sent as the finished result.  It fails
     * without media, when `transcribe` rejects (`outcome` is None), without
     * a held transcription, or without an alignment result; transcribing
     * ends either way.
     */
    method CompleteGenerate(held: Option<Transcription>, outcome: Option<Transcribed>) returns (r: Result<TranscriptionUpdate, TranscriptionError>)
      modifies this
      ensures !transcribing
      ensures r.Err? <==> old(media).None? || outcome.None? || held.None? || outcome.value.alignment.None?
      ensures r.Err? ==> sent == old(sent)
      ensures r.Ok? ==>
        var a := outcome.value.alignment.value;
        && r.value == TranscriptionUpdate(held.value.id, Finished, Some(AlignmentResult(Flattened(a.timeline), a.transcript)),
                                          outcome.value.engine, outcome.value.model)
        && sent == old(sent) + [r.value]
      ensures media == old(media) && transcription == old(transcription) && progress == old(progress)
    {
      transcribing := false;
      // `transcribe(media.src, ...)` throws without media
      if media.None? { return Err(TypeError); }
      if outcome.None? { return Err(Failed("transcribe")); }
      var timeline := FlattenTimeline(outcome.value.alignment);
      // `transcription.id` throws when the call started without a transcription
      if held.None? { return Err(TypeError); }
      // `alignmentResult.transcript` throws without an alignment result
      if outcome.value.alignment.None? { return Err(TypeError); }
      var update := TranscriptionUpdate(held.value.id, Finished, Some(AlignmentResult(timeline, outcome.value.alignment.value.transcript)),
                                        outcome.value.engine, outcome.value.model);
      sent := sent + [update];
      return Ok(update);
    }

    /**
     * `findTranscriptionFromWebApi`: finds or creates a missing transcription,
     * then adopts the selected remote transcript as the finished result.
     * It fails without media, when the selection rejects, and when the call
     * started without a transcription.
     */
    method FindFromWebApi(fetched: Result<Transcription, string>, response: Option<seq<RemoteTranscript>>)
      returns (r: Result<TranscriptionUpdate, TranscriptionError>)
      modifies this
      ensures transcription == AfterFindOrCreate(old(media), old(transcription), fetched)
      ensures old(media).None? ==> r == Err(TypeError)
      ensures old(media).Some? && SelectRemote(response).Err? ==> r == Err(SelectRemote(response).error)
      ensures old(media).Some? && SelectRemote(response).Ok? && old(transcription).None? ==> r == Err(TypeError)
      ensures old(media).Some? && SelectRemote(response).Ok? && old(transcription).Some? ==>
        var t := SelectRemote(response).value;
        r == Ok(TranscriptionUpdate(old(transcription).value.id, Finished, t.result, t.engine, t.model))
      ensures r.Ok? ==> sent == old(sent) + [r.value]
      ensures r.Err? ==> sent == old(sent)
      ensures media == old(media) && transcribing == old(transcribing) && progress == old(progress)
    {
      var held := transcription;
      if transcription.None? {
        FindOrCreate(fetched);
      }
      // `media.md5` throws without media
      if media.None? { return Err(TypeError); }
      var selected := SelectRemote(response);
      if selected.Err? { return Err(selected.error); }
      if held.None? { return Err(TypeError); }
      var t := selected.value;
      var update := TranscriptionUpdate(held.value.id, Finished, t.result, t.engine, t.model);
      sent := sent + [update];
      return Ok(update);
    }

    /** The database listener: an update of a transcription record replaces the held one. */
    method OnTransactionUpdate(model: string, action: string, record: Transcription)
      modifies this
      ensures transcription == if model == "Transcription" && action == "update" then Some(record) else old(transcription)
      ensures media == old(media) && transcribing == old(transcribing) && progress == old(progress) && sent == old(sent)
    {
      if model == "Transcription" && action == "update" {
        transcription := Some(record);
      }
    }

    /** The whisper progress listener: the reported percentage, capped at 100. */
    method ReportProgress(p: real)
      modifies this
      ensures progress <= 100.0
      ensures p <= 100.0 ==> progress == p
      ensures p > 100.0 ==> progress == 100.0
      ensures media == old(media) && transcription == old(transcription) && transcribing == old(transcribing) && sent == old(sent)
    {
      var q := p;
      if q > 100.0 {
        q := 100.0;
      }
      progress := q;
    }
  }
}
