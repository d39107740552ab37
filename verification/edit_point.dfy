/** The value passed between the editor and its outputs: a half-open span of
    source video frames and whether it is played at the sounded speed. The class
    in src/editor/edit_point.py is not part of this model; its three fields are
    what every caller reads. Frames are never negative: the points come from
    `get_edit_points`, which counts from frame 0. */
module EditPoints {

  datatype EditPoint = EditPoint(startFrame: nat, endFrame: nat, shouldKeep: bool)
  {
    /** Number of source frames the point covers. */
    function Span(): int
    {
      endFrame - startFrame
    }
  }

  /** One call of an output's `apply_edit_point`: the point, the time-stretched and
      faded audio of that point, and the output frame span it was given. */
  datatype EditEvent = EditEvent(point: EditPoint, audio: seq<real>, startOutputFrame: int, endOutputFrame: int)
  {
    function OutputSpan(): int
    {
      endOutputFrame - startOutputFrame
    }
  }
}
