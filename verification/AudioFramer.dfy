/** The audio tap: samples in blocks of any size, posted in frames of 960. */
module AudioFramer {
  import opened Options
  import opened Sequences

  const FRAME: nat := 960

  function Flatten(frames: seq<seq<real>>): seq<real> {
    if frames == [] then [] else Flatten(frames[..|frames| - 1]) + frames[|frames| - 1]
  }

  /** Frames posted and samples buffered since the last gating reset. */
  datatype Tap = Tap(frames: seq<seq<real>>, pending: seq<real>)

  /** One block of samples while transmitting. The second component is false when the block
      overruns a fresh buffer: what did not fit is then lost. */
  function Feed(t: Tap, input: seq<real>): (Tap, bool)
    requires |t.pending| <= FRAME
  {
    var fits := Min(|input|, FRAME - |t.pending|);
    var filled := t.pending + input[..fits];
    if |filled| < FRAME then (t.(pending := filled), true)
    else if |input| - fits > FRAME then (Tap(t.frames + [filled], []), false)
    else (Tap(t.frames + [filled], input[fits..]), true)
  }

  ghost predicate FramesFull(t: Tap) {
    forall i :: 0 <= i < |t.frames| ==> |t.frames[i]| == FRAME
  }

  lemma FlattenSnoc(frames: seq<seq<real>>, f: seq<real>)
    ensures Flatten(frames + [f]) == Flatten(frames) + f
  {
    assert (frames + [f])[..|frames|] == frames;
  }

  lemma FeedShape(t: Tap, input: seq<real>)
    requires |t.pending| <= FRAME && FramesFull(t)
    ensures var (t', ok) := Feed(t, input);
      && FramesFull(t') && |t'.pending| <= FRAME && t.frames <= t'.frames
      && (ok <==> |input| <= 2 * FRAME - |t.pending|)
      && (ok ==> (|t'.pending| < FRAME <==> |input| < 2 * FRAME - |t.pending|))
  {
  }

  /** All samples since the reset: those posted and those still buffered. */
  function Samples(t: Tap): seq<real> {
    Flatten(t.frames) + t.pending
  }

  lemma FeedSamples(t: Tap, input: seq<real>)
    requires |t.pending| <= FRAME
    ensures var (t', ok) := Feed(t, input);
      if ok then Samples(t') == Samples(t) + input else |Samples(t')| < |Samples(t)| + |input|
  {
    var (t', ok) := Feed(t, input);
    var fits := Min(|input|, FRAME - |t.pending|);
    var head, tail := input[..fits], input[fits..];
    assert input == head + tail;
    if t'.frames == t.frames {
      assert head == input;
      Associative(Flatten(t.frames), t.pending, input);
    } else {
      FlattenSnoc(t.frames, t.pending + head);
      Associative(Flatten(t.frames), t.pending, head);
      Associative(Samples(t), head, tail);
    }
  }

  /** A block is kept whole exactly when it does not exceed the room left plus one frame;
      every posted frame is full, and the buffer is left unfilled by any shorter block. */
  lemma FeedConserves(t: Tap, input: seq<real>)
    requires |t.pending| <= FRAME && FramesFull(t)
    ensures var (t', ok) := Feed(t, input);
      && FramesFull(t') && |t'.pending| <= FRAME && t.frames <= t'.frames
      && (ok <==> |input| <= 2 * FRAME - |t.pending|)
      && (ok <==> Samples(t') == Samples(t) + input)
      && (ok ==> (|t'.pending| < FRAME <==> |input| < 2 * FRAME - |t.pending|))
  {
    FeedShape(t, input);
    FeedSamples(t, input);
  }

  function FeedAll(t: Tap, inputs: seq<seq<real>>): Tap
    requires |t.pending| <= FRAME
    decreases |inputs|
  {
    if inputs == [] then t else FeedAll(Feed(t, inputs[0]).0, inputs[1..])
  }

  function Joined(inputs: seq<seq<real>>): seq<real> {
    if inputs == [] then [] else inputs[0] + Joined(inputs[1..])
  }

  /** With blocks of at most one frame, the frames followed by the buffered samples are all
      samples since the reset, and less than a frame is ever held back. */
  lemma {:induction false} RunsConserve(t: Tap, inputs: seq<seq<real>>)
    requires |t.pending| < FRAME && FramesFull(t)
    requires forall i :: 0 <= i < |inputs| ==> |inputs[i]| <= FRAME
    ensures var t' := FeedAll(t, inputs);
      && |t'.pending| < FRAME && FramesFull(t')
      && Samples(t') == Samples(t) + Joined(inputs)
    decreases |inputs|
  {
    if inputs != [] {
      FeedConserves(t, inputs[0]);
      var t' := Feed(t, inputs[0]).0;
      RunsConserve(t', inputs[1..]);
      Associative(Samples(t), inputs[0], Joined(inputs[1..]));
    } else {
      assert Samples(t) + Joined(inputs) == Samples(t);
    }
  }

  /** So the frames are the samples cut every 960. */
  lemma {:induction false} FramesAreSlices(frames: seq<seq<real>>, rest: seq<real>, k: nat)
    requires forall i :: 0 <= i < |frames| ==> |frames[i]| == FRAME
    requires k < |frames|
    ensures |Flatten(frames)| == FRAME * |frames|
    ensures (Flatten(frames) + rest)[FRAME * k..FRAME * (k + 1)] == frames[k]
    decreases |frames|
  {
    var n := |frames| - 1;
    var init := frames[..n];
    if n == 0 {
      assert Flatten(init) == [];
    } else {
      FramesAreSlices(init, frames[n] + rest, if k < n then k else 0);
      assert Flatten(frames) + rest == Flatten(init) + (frames[n] + rest);
    }
  }

  class SttTapProcessor {
    var buffer: array<real>
    var offset: nat
    var transmitting: bool
    /** Buffers handed over to the main thread. */
    var posted: seq<array<real>>
    /** Their contents when they were posted, and how many preceded the last reset. */
    ghost var contents: seq<seq<real>>
    ghost var reset: nat

    ghost predicate Valid()
      reads this, buffer, posted
    {
      && buffer.Length == FRAME && offset <= FRAME
      && buffer !in posted
      && |contents| == |posted| && reset <= |contents|
      && forall i :: 0 <= i < |posted| ==> posted[i].Length == FRAME && posted[i][..] == contents[i]
    }

    ghost function State(): Tap
      requires Valid()
      reads this, buffer, posted
    {
      Tap(contents[reset..], buffer[..offset])
    }

    constructor ()
      ensures Valid() && fresh(buffer) && transmitting && State() == Tap([], []) && contents == []
    {
      buffer := new real[FRAME];
      offset, transmitting, posted := 0, true, [];
      contents, reset := [], 0;
    }

    method OnMessage(active: bool)
      requires Valid()
      modifies this`transmitting
      ensures Valid() && transmitting == active && State() == old(State())
    {
      transmitting := active;
    }

    method Append(samples: seq<real>)
      requires Valid() && offset + |samples| <= FRAME
      modifies this`offset, buffer
      ensures Valid() && State() == Tap(old(State()).frames, old(State()).pending + samples)
    {
      ghost var pending := buffer[..offset];
      CopyInto(buffer, offset, samples);
      offset := offset + |samples|;
      assert buffer[..offset] == pending + samples;
    }

    /** Hand the full buffer over and start a fresh one. */
    method Post()
      requires Valid() && offset == FRAME
      modifies this
      ensures Valid() && fresh(buffer) && transmitting == old(transmitting)
      ensures contents == old(contents) + [old(buffer[..])]
      ensures State() == Tap(old(State()).frames + [old(State()).pending], [])
    {
      contents := contents + [buffer[..]];
      posted := posted + [buffer];
      assert buffer[..] == buffer[..offset];
      buffer := new real[FRAME];
      offset := 0;
      assert contents[reset..] == old(contents[reset..]) + [old(buffer[..])];
    }

    /** `ok` is false when copying the leftover throws. Posted frames never change again. */
    method Process(input: Option<seq<real>>) returns (ok: bool)
      requires Valid()
      modifies this, buffer
      ensures Valid() && transmitting == old(transmitting) && (buffer == old(buffer) || fresh(buffer))
      ensures old(contents) <= contents
      ensures if input.None? then ok && State() == old(State())
              else if !transmitting then ok && State() == Tap([], [])
              else (State(), ok) == Feed(old(State()), input.value)
    {
      if input.None? {
        return true;
      }
      if !transmitting {
        offset := 0;
        reset := |contents|;
        return true;
      }
      var samples := input.value;
      var toCopy := Min(|samples|, FRAME - offset);
      assert toCopy == |samples| ==> samples[toCopy..] == [];
      Append(samples[..toCopy]);
      if offset < FRAME {
        return true;
      }
      Post();
      if toCopy < |samples| {
        var leftover := samples[toCopy..];
        if |leftover| > FRAME {
          return false;
        }
        assert [] + leftover == leftover;
        Append(leftover);
      }
      ok := true;
    }
  }

  method CopyInto(buffer: array<real>, at: nat, samples: seq<real>)
    requires at + |samples| <= buffer.Length
    modifies buffer
    ensures buffer[..] == old(buffer[..at]) + samples + old(buffer[at + |samples|..])
  {
    for i := 0 to |samples|
      invariant forall k :: 0 <= k < buffer.Length ==>
                  buffer[k] == if at <= k < at + i then samples[k - at] else old(buffer[k])
    {
      buffer[at + i] := samples[i];
    }
  }
}
