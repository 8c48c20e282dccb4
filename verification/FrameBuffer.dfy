/** The receive buffer of a session: 255 octets filled in place, frame by frame. */
module FrameBuffer {
  import opened Octets
  import opened LinkLayer
  import opened Framing

  class Assembler {
    const buf: array<Octet>
    var len: nat
    var left: nat
    var got: seq<Frame>
    var status: Status

    ghost predicate Valid()
      reads this, buf
    {
      buf.Length == 255 && len <= 255 && Sound(View())
    }

    ghost function View(): Reader
      requires len <= buf.Length
      reads this, buf
    {
      Reader(buf[..len], left, got, status)
    }

    constructor ()
      ensures Valid() && View() == Fresh && fresh(buf)
    {
      buf := new Octet[255](_ => 0);
      len, left, got, status := 0, 0, [], Running;
    }

    /** bufferevent_read: move octets behind those already there. */
    method Store(xs: seq<Octet>)
      requires len + |xs| <= buf.Length
      modifies this`len, buf
      ensures len == old(len) + |xs| && buf[..len] == old(buf[..len]) + xs
    {
      var i := 0;
      while i < |xs|
        invariant 0 <= i <= |xs| && len == old(len)
        invariant buf[..len + i] == old(buf[..len]) + xs[..i]
      {
        buf[len + i] := xs[i];
        i := i + 1;
      }
      len := len + |xs|;
      assert xs[..|xs|] == xs;
    }

    /** frame_recv, and the buffer is free again. */
    method Complete()
      requires HEADER <= len <= buf.Length && left == 0
      modifies this
      ensures len == 0 && View() == Finish(old(View()))
    {
      got := got + [Decode(buf[..len])];
      len := 0;
    }

    method ReadHeader(input: seq<Octet>)
      requires Valid() && left == 0 && |input| >= HEADER
      modifies this, buf
      ensures Valid() && View() == TakeHeader(old(View()), input[..HEADER])
    {
      var h := input[..HEADER];
      if h[0] != START || h[1] < APDU_MIN || h[1] > APDU_MAX {
        status := Closed;
        return;
      }
      assert buf[..len] == [] && [] + h == h;
      Store(h);
      left := h[1] - CONTROL;
      if left == 0 {
        Complete();
      }
    }

    method ReadBody(xs: seq<Octet>)
      requires Valid() && 0 < left && |xs| <= left
      modifies this, buf
      ensures len <= buf.Length && View() == TakeBody(old(View()), xs)
    {
      Store(xs);
      left := left - |xs|;
      if left == 0 {
        Complete();
      }
    }

    /** One turn; `n` octets of the input are used. */
    method BufferRead(input: seq<Octet>) returns (n: nat)
      requires Valid()
      modifies this, buf
      ensures Valid() && View() == Framing.BufferRead(old(View()), input)
      ensures n == Least(Want(old(View())), |input|)
    {
      BufferReadSound(View(), input);
      n := Least(if left == 0 then HEADER else left, |input|);
      if left == 0 {
        if n < HEADER {
          status := Aborted;
        } else {
          ReadHeader(input);
        }
      } else {
        ReadBody(input[..n]);
      }
    }

    method ReadCallback(input: seq<Octet>)
      requires Valid()
      modifies this, buf
      ensures Valid() && View() == Framing.ReadCallback(old(View()), input)
    {
      var rest := input;
      while rest != [] && status.Running?
        invariant Valid() && Framing.ReadCallback(View(), rest) == Framing.ReadCallback(old(View()), input)
        decreases |rest|
      {
        var n := BufferRead(rest);
        rest := rest[n..];
      }
    }
  }
}
