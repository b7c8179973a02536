/** Unsigned 32-bit frame numbers, which wrap. */
module Frames {
  type FrameNumber = n: nat | n < 0x1_0000_0000

  function FrameAfter(frame: FrameNumber, count: nat): FrameNumber { (frame + count) % 0x1_0000_0000 }

  lemma OneFrameMore(frame: FrameNumber, count: nat)
    ensures FrameAfter(FrameAfter(frame, count), 1) == FrameAfter(frame, count + 1)
    ensures FrameAfter(frame, 0) == frame
  {
  }
}
