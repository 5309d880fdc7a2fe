/**
  Media frames: the bytes and metadata that encoders, sinks and sessions pass on.
 */
module Frames {
  import opened Bytes

  /** The kinds of media, `rtmp_tag`. */
  const SCRIPT := 0
  const VIDEO := 1
  const AUDIO := 2

  /** Codec numbers, `rtmp_codec`. */
  const H264 := 7
  const AAC := 160
  const OPUS := 208

  /** A NAL unit. */
  type Nal = seq<byte>

  datatype Frame = Frame(data: seq<byte>, media: int, codec: int, flag: int, pts: int, dts: int)

  const EMPTY_FRAME := Frame([], 0, 0, 0, 0, 0)

  /** A frame under construction, `fixed_frame_buffer`. Once handed on, a frame is not changed, so what
      is handed on is its value. */
  class FrameBuffer {
    var payload: seq<byte>
    var media: int
    var codec: int
    var flag: int
    var pts: int
    var dts: int

    function Value(): Frame
      reads this
    {
      Frame(payload, media, codec, flag, pts, dts)
    }

    constructor ()
      ensures Value() == EMPTY_FRAME
    {
      payload, media, codec, flag, pts, dts := [], 0, 0, 0, 0, 0;
    }

    method Append(data: seq<byte>)
      modifies this
      ensures Value() == old(Value()).(data := old(payload) + data)
    {
      payload := payload + data;
    }

    /** Appending a frame also takes over its metadata. */
    method AppendFrame(frame: Frame)
      modifies this
      ensures Value() == frame.(data := old(payload) + frame.data)
    {
      media, codec, pts, dts, flag := frame.media, frame.codec, frame.pts, frame.dts, frame.flag;
      Append(frame.data);
    }

    method Erase(size: nat)
      modifies this
      ensures Value() == old(Value()).(data := old(payload)[Min(size, |old(payload)|)..])
    {
      if |payload| < size {
        payload := [];
      } else {
        payload := payload[size..];
      }
    }

    /** Shortens the frame, or lengthens it with zeros. */
    method Resize(size: nat)
      modifies this
      ensures |payload| == size && Value() == old(Value()).(data := payload)
      ensures forall k :: 0 <= k < size ==> payload[k] == if k < |old(payload)| then old(payload)[k] else 0
    {
      if size <= |payload| {
        payload := payload[..size];
      } else {
        payload := payload + seq(size - |payload|, _ => 0);
      }
    }
  }
}
