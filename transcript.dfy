/** The record every stage of transcribe.py passes along: `{'start', 'end', 'text'}`. */
module Transcript {
  /** One transcript segment. `start` and `end` are timestamp strings as written in the
      WebVTT file (or as `seconds_to_vtt_time` renders them). */
  datatype Segment = Segment(start: string, end: string, text: string)

  /** The texts of the segments, in order. */
  function Texts(segments: seq<Segment>): (texts: seq<string>)
    ensures |texts| == |segments|
    ensures forall i :: 0 <= i < |segments| ==> texts[i] == segments[i].text
  {
    if segments == [] then [] else [segments[0].text] + Texts(segments[1..])
  }
}
