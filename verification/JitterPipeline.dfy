/** The receiving thread's loop (src/media/media_pipeline.rs, run_frame_pipeline_loop). */
module JitterPipeline {
  import opened Common
  import opened Rtp
  import opened Jitter
  import opened JitterClass
  import opened JitterDelivery

  /** One pass: the flag read, the packet received if any, the clock, and whether a frame finds its consumer. */
  datatype Turn = Turn(connected: bool, packet: Option<RtpPacket>, clock: Clock, taken: bool)

  predicate Fed(turns: seq<Turn>) {
    forall i :: 0 <= i < |turns| ==> turns[i].connected && turns[i].packet.Some?
  }

  function PacketsIn(turns: seq<Turn>): (ps: seq<RtpPacket>)
    requires Fed(turns)
    ensures |ps| == |turns|
  {
    seq(|turns|, i requires 0 <= i < |turns| => turns[i].packet.value)
  }

  function ClocksIn(turns: seq<Turn>): (cs: seq<Clock>)
    ensures |cs| == |turns|
  {
    seq<Clock>(|turns|, i requires 0 <= i < |turns| => turns[i].clock)
  }

  /** Whether the loop ends at pass `i`, or just after pass `i - 1` handed out a frame nobody took. */
  predicate Ends(turns: seq<Turn>, i: nat, frames: seq<Option<seq<u8>>>)
    requires i < |turns| && i == |frames|
  {
    || !turns[i].connected || turns[i].packet.None?
    || (i > 0 && frames[i - 1].Some? && !turns[i - 1].taken)
  }

  lemma PlayOne(b: Buffer, turns: seq<Turn>, t: Turn)
    requires b.Shaped() && Fed(turns) && t.connected && t.packet.Some?
    ensures Fed(turns + [t])
    ensures var (ps, cs) := (PacketsIn(turns), ClocksIn(turns));
            var r := Pop(Add(PlayOut(b, ps, cs), t.packet.value), t.clock);
            && Play(b, PacketsIn(turns + [t]), ClocksIn(turns + [t])) == Play(b, ps, cs) + [r.frame]
            && PlayOut(b, PacketsIn(turns + [t]), ClocksIn(turns + [t])) == r.buffer
  {
    hide Pop, Add;
    assert PacketsIn(turns + [t]) == PacketsIn(turns) + [t.packet.value];
    assert ClocksIn(turns + [t]) == ClocksIn(turns) + [t.clock];
    PlaySplit(b, PacketsIn(turns), [t.packet.value], ClocksIn(turns), [t.clock]);
  }

  /** The frames handed out are those of playing the packets taken, and the loop stops only for a reason. */
  method RunFramePipelineLoop(buffer: JitterBuffer, turns: seq<Turn>) returns (frames: seq<Option<seq<u8>>>)
    requires buffer.Valid()
    modifies buffer, buffer.packets
    ensures buffer.Valid() && buffer.packets == old(buffer.packets)
    ensures |frames| <= |turns| && Fed(turns[..|frames|])
    ensures var (ps, cs) := (PacketsIn(turns[..|frames|]), ClocksIn(turns[..|frames|]));
            frames == Play(old(buffer.View()), ps, cs) && buffer.View() == PlayOut(old(buffer.View()), ps, cs)
    ensures |frames| < |turns| ==> Ends(turns, |frames|, frames)
    ensures forall i :: 0 <= i < |frames| ==> !Ends(turns, i, frames[..i])
  {
    hide Pop, Add, PacketsIn, ClocksIn;
    frames := [];
    var i := 0;
    ghost var start := buffer.View();
    while i < |turns| && turns[i].connected
      invariant 0 <= i <= |turns| && |frames| == i && Fed(turns[..i])
      invariant buffer.Valid() && buffer.packets == old(buffer.packets)
      invariant forall j :: 0 <= j < i ==> !Ends(turns, j, frames[..j])
      invariant i > 0 && frames[i - 1].Some? ==> turns[i - 1].taken
      invariant frames == Play(start, PacketsIn(turns[..i]), ClocksIn(turns[..i]))
      invariant buffer.View() == PlayOut(start, PacketsIn(turns[..i]), ClocksIn(turns[..i]))
    {
      var turn := turns[i];
      if turn.packet.None? {
        break;
      }
      assert turns[..i + 1] == turns[..i] + [turn];
      PlayOne(start, turns[..i], turn);
      assert !Ends(turns, i, frames) && frames[..i] == frames;
      buffer.AddPacket(turn.packet.value);
      var frame := buffer.PopFrame(turn.clock);
      assert forall j :: 0 <= j < i ==> (frames + [frame])[..j] == frames[..j];
      frames := frames + [frame];
      i := i + 1;
      if frame.Some? && !turn.taken {
        break;
      }
    }
  }
}
