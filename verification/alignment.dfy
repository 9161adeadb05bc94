/**
 * The aligned transcript as the echogarden aligner returns it and as a
 * transcription record stores it: a timeline of entries, each with a time
 * span, a type ("sentence", "word", ...) and a sub-timeline, plus the plain
 * transcript text.  Times are seconds; they are only compared and copied,
 * so `real` is exact for them.
 */
module Alignment {
  import opened Wrappers

  datatype TimelineEntry = TimelineEntry(
    entryType: string,
    text: string,
    startTime: real,
    endTime: real,
    timeline: seq<TimelineEntry>)

  datatype AlignmentResult = AlignmentResult(timeline: seq<TimelineEntry>, transcript: string)

  /** `result && result["transcript"]`: a result exists and its transcript is not the empty string. */
  predicate IsAligned(result: Option<AlignmentResult>) {
    result.Some? && result.value.transcript != ""
  }
}
