/** The playback half of src/drivers/hda.rs: changing the rate, and feeding samples to the
    ring. */
module HdaDriver {
  import opened Machine
  import opened HdaRing

  const MAX_POSITION_SPINS := 50_000_000

  class PlaybackStream {
    var converterNid: u8
    var activeRate: u32
    var positionSpins: nat
    /** Whether `init` got the two buffers; a converter may be found without them. */
    const buffered: bool
    const ring: BdlRingState
    const data: array<u8>
    // The engine: its link position register, and how many bytes it has left to play
    var linkPosition: u32
    var queued: nat
    ghost var st: Stream
    ghost var heard: seq<u8>

    /** The engine is somewhere in the stream the ring holds.  The driver's read position may
        still be one of before a restart. */
    ghost predicate Engaged()
      reads this, ring, data
    {
      && Fifo(ring.writePos, st.synced % BDL_TOTAL_LEN, data[..], st)
      && ring.readPos < BDL_TOTAL_LEN
      && linkPosition == st.played % BDL_TOTAL_LEN
      && queued == |st.written| - st.played
      && heard == st.written[..st.played]
      && (!buffered ==> activeRate == 0)
    }

    ghost predicate Valid()
      reads this, ring, data
    {
      Engaged() && ring.readPos == st.synced % BDL_TOTAL_LEN
    }

    constructor (nid: u8, buffered: bool)
      ensures Valid() && converterNid == nid && activeRate == positionSpins == 0 && st == Stream([], 0, 0)
      ensures this.buffered == buffered && fresh(ring) && fresh(data)
    {
      this.buffered := buffered;
      converterNid, activeRate, positionSpins := nid, 0, 0;
      ring := new BdlRingState();
      data := new u8[BDL_TOTAL_LEN](_ => 0);
      linkPosition, queued, st, heard := 0, 0, Stream([], 0, 0), [];
    }

    /** The engine plays any number of the bytes it has left. */
    method EngineRuns()
      requires Engaged()
      modifies this`linkPosition, this`queued, this`st, this`heard
      ensures Engaged() && st == old(st).(played := st.played) && st.played >= old(st.played) && old(heard) <= heard
    {
      hide Fifo;
      FifoOrder(ring.writePos, st.synced % BDL_TOTAL_LEN, data[..], st);
      var n: nat := *;
      while n > 0 && queued > 0
        invariant Engaged() && st == old(st).(played := st.played) && st.played >= old(st.played) && old(heard) <= heard
        invariant st.played <= |st.written|
        decreases n
      {
        FifoPlays(ring.writePos, st.synced % BDL_TOTAL_LEN, data[..], st);
        heard := heard + [data[linkPosition]];
        linkPosition := (linkPosition + 1) % BDL_TOTAL_LEN;
        st := st.(played := st.played + 1);
        queued, n := queued - 1, n - 1;
      }
    }

    /** The engine was reset and started again, and has reached some position by now: it plays
        on from there whatever the ring holds, up to the write position. */
    method EngineRestarts(ghost ringNow: seq<u8>, at: u32)
      requires data.Length == BDL_TOTAL_LEN && ringNow == data[..]
      requires ring.writePos < BDL_TOTAL_LEN && ring.readPos < BDL_TOTAL_LEN && at < BDL_TOTAL_LEN
      requires !buffered ==> activeRate == 0
      modifies this`linkPosition, this`queued, this`st, this`heard
      ensures Engaged() && st == Restarted(ringNow, ring.writePos, at) && linkPosition == at == st.played
    {
      hide Fifo;
      RestartedFifo(data[..], ring.writePos, at);
      linkPosition, queued := at, (ring.writePos + BDL_TOTAL_LEN - at) % BDL_TOTAL_LEN;
      st := Restarted(data[..], ring.writePos, at);
      heard := st.written[..at];
      assert at % BDL_TOTAL_LEN == at;
    }

    /** Change the rate: stop and reset the stream, program and start it, tell the codec, and
        only then start the ring afresh.  The engine runs while the codec is told, so it may be
        anywhere by the end.  When the codec does not answer, ring and rate are the old ones.
        `stopped` is the stream as the engine left it. */
    method Reprogram(rate: u32) returns (r: Result<()>, ghost stopped: Stream)
      requires Engaged()
      modifies this, ring
      ensures Engaged() && converterNid == old(converterNid)
      ensures stopped == old(st).(played := stopped.played) && old(st.played) <= stopped.played <= |stopped.written|
      ensures r.Ok? ==>
                && buffered && activeRate == rate && positionSpins == 0 && ring.writePos == ring.readPos == 0
                && data.Length == BDL_TOTAL_LEN && linkPosition < BDL_TOTAL_LEN
                && st == Restarted(data[..], 0, linkPosition) && st.played == linkPosition
                && (Left(st) == [] <==> linkPosition == 0)
      ensures r.Err? ==>
                && activeRate == old(activeRate) && ring.writePos == old(ring.writePos)
                && ring.readPos == old(ring.readPos)
                && if !buffered then r == Err(Unsupported) && st == stopped
                   else
                     && r == Err(TimedOut) && data.Length == BDL_TOTAL_LEN
                     && ring.writePos < BDL_TOTAL_LEN && linkPosition < BDL_TOTAL_LEN
                     && st == Restarted(data[..], ring.writePos, linkPosition) && st.played == linkPosition
                     && (Left(st) == Left(stopped) <==> linkPosition == stopped.played % BDL_TOTAL_LEN)
    {
      hide Fifo, Restarted;
      EngineRuns();
      stopped := st;
      FifoOrder(ring.writePos, st.synced % BDL_TOTAL_LEN, data[..], st);
      if !buffered {
        return Err(Unsupported), stopped;
      }
      var at: u32, answered: bool := *, *;
      at := at % BDL_TOTAL_LEN;
      RestartExact(ring.writePos, data[..], stopped, at);
      if !answered {
        EngineRestarts(data[..], at);
        return Err(TimedOut), stopped;
      }
      ring.writePos, ring.readPos := 0, 0;
      EmptyFifo(data[..]);
      RestartExact(0, data[..], Stream([], 0, 0), at);
      EngineRestarts(data[..], at);
      activeRate, positionSpins := rate, 0;
      return Ok(()), stopped;
    }

    /** Feed samples to the ring, waiting while it is full.  The stream `base` the samples join
        is the one being played, or the one a rate change left; it grows by a prefix of
        `samples`: by all of them exactly when the answer is Ok.  A rate change the codec did
        not answer writes nothing.  The loop ends for every sequence of link positions, and gives
        up only with the ring full and the waits used up. */
    method WritePcm(rate: u32, samples: seq<u8>) returns (r: Result<()>, ghost base: Stream, ghost done: nat)
      requires Engaged()
      modifies this, ring, data
      ensures Engaged() && done <= |samples| && converterNid == old(converterNid)
      ensures st.written == base.written + samples[..done]
      ensures converterNid == 0 ==> r == Err(Unsupported) && st == base == old(st)
      ensures converterNid != 0 && rate == 0 ==> r == Err(InvalidArgument) && st == base == old(st)
      ensures converterNid != 0 && rate != 0 && !buffered ==>
                r == Err(Unsupported) && base.written == old(st.written) && done == 0
      ensures converterNid != 0 && rate != 0 && buffered && activeRate == rate ==>
                && r == (if done == |samples| then Ok(()) else Err(TimedOut)) && (samples != [] ==> Valid())
                && (r.Ok? && samples != [] ==> positionSpins == 0)
                && (r.Err? ==> positionSpins >= MAX_POSITION_SPINS && FreeSpace(ring.writePos, ring.readPos) == 0)
                && (old(activeRate) == rate ==> base == old(st))
                && (old(activeRate) != rate ==>
                      && data.Length == BDL_TOTAL_LEN && base.played < BDL_TOTAL_LEN
                      && base == Restarted(old(data[..]), 0, base.played))
      ensures converterNid != 0 && rate != 0 && buffered && activeRate != rate ==>
                && r == Err(TimedOut) && done == 0 && activeRate == old(activeRate)
                && data.Length == BDL_TOTAL_LEN && data[..] == old(data[..])
                && ring.writePos == old(ring.writePos) < BDL_TOTAL_LEN && st.played < BDL_TOTAL_LEN
                && st == Restarted(data[..], ring.writePos, st.played)
    {
      hide Fifo, Restarted;
      base, done := st, 0;
      if converterNid == 0 {
        return Err(Unsupported), base, done;
      }
      if rate == 0 {
        return Err(InvalidArgument), base, done;
      }
      if activeRate != rate {
        var programmed;
        ghost var stopped;
        programmed, stopped := Reprogram(rate);
        base := st;
        if programmed.Err? {
          return programmed, base, done;
        }
      }
      var fed := Feed(samples);
      return (if fed == |samples| then Ok(()) else Err(TimedOut)), base, fed;
    }

    /** The feed loop: copy until all is in the ring, or the ring was found full too often with
        nothing copied since. */
    method Feed(samples: seq<u8>) returns (at: nat)
      requires Engaged()
      modifies this`linkPosition, this`queued, this`st, this`heard, this`positionSpins, ring, data
      ensures Engaged() && at <= |samples| && st.written == old(st.written) + samples[..at]
      ensures samples != [] ==> Valid()
      ensures at == |samples| > 0 ==> positionSpins == 0
      ensures at < |samples| ==> positionSpins >= MAX_POSITION_SPINS && FreeSpace(ring.writePos, ring.readPos) == 0
    {
      hide Fifo;
      at := 0;
      while at < |samples|
        invariant Engaged() && 0 <= at <= |samples| && (at > 0 ==> Valid())
        invariant at == |samples| > 0 ==> positionSpins == 0
        invariant st.written == old(st.written) + samples[..at]
        decreases |samples| - at, MAX_POSITION_SPINS - positionSpins
      {
        var written, stuck := FeedOnce(samples[at..]);
        if stuck {
          return;
        }
        PrefixGrows(old(st.written), samples, at, written);
        at := at + written;
      }
    }

    /** One turn of the loop: read the link position, then either wait or copy what fits. */
    method FeedOnce(rest: seq<u8>) returns (written: nat, stuck: bool)
      requires Engaged() && rest != []
      modifies this`linkPosition, this`queued, this`st, this`heard, this`positionSpins, ring, data
      ensures Valid() && written <= |rest| && st.written == old(st.written) + rest[..written]
      ensures old(ring.writePos) < BDL_TOTAL_LEN && ring.readPos < BDL_TOTAL_LEN
      ensures written == Min(FreeSpace(old(ring.writePos), ring.readPos), |rest|)
      ensures stuck ==> rest[..written] == []
      ensures if written > 0 then !stuck && positionSpins == 0
              else
                && positionSpins == old(positionSpins) + 1 && (stuck <==> positionSpins >= MAX_POSITION_SPINS)
                && FreeSpace(ring.writePos, ring.readPos) == 0
    {
      hide Fifo, FreeSpace;
      EngineRuns();
      FifoOrder(ring.writePos, st.synced % BDL_TOTAL_LEN, data[..], st);
      var sampled := linkPosition;
      ghost var count := st.played;
      EngineRuns();
      FifoOrder(ring.writePos, st.synced % BDL_TOTAL_LEN, data[..], st);
      ring.SyncReadFromLink(sampled, data[..], st, count);
      st := st.(synced := count);
      PositionsExact(ring.writePos, ring.readPos, data[..], st);
      var free := FreeSpace(ring.writePos, ring.readPos);
      if free == 0 {
        positionSpins := positionSpins + 1;
        assert rest[..0] == [];
        return 0, positionSpins >= MAX_POSITION_SPINS;
      }
      var chunk := rest[..Min(free, |rest|)];
      written := ring.CopyInto(data, chunk, st);
      assert chunk[..written] == rest[..written];
      st := st.(written := st.written + chunk[..written]);
      queued := queued + written;
      positionSpins := 0;
      stuck := false;
    }
  }

  lemma PrefixGrows(p: seq<u8>, s: seq<u8>, at: nat, n: nat)
    requires at + n <= |s|
    ensures (p + s[..at]) + s[at..][..n] == p + s[..at + n]
  {
    assert s[..at] + s[at..][..n] == s[..at + n];
  }
}
