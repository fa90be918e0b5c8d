/** The branches of the worker loop as they are programmed, on pooled entries
    and the log file: what one turn of the select takes, formats and writes,
    whatever producers send meanwhile. */
module Worker {
  import opened Basics
  import opened EntryPool
  import JsonLine
  import opened Records
  import Pipeline
  import Rotation

  /** The line of every call with its own timestamp. */
  function LinesAt(c: Config, stamps: seq<bytes>, calls: seq<Call>): (ls: seq<bytes>)
    requires |stamps| == |calls|
    ensures |ls| == |calls| && forall i :: 0 <= i < |calls| ==> ls[i] == LineOf(c, stamps[i], Fresh(calls[i]))
  {
    seq(|calls|, i requires 0 <= i < |calls| => LineOf(c, stamps[i], Fresh(calls[i])))
  }

  /** Every line shows its call and timestamp. */
  ghost predicate LinesAtShow(c: Config, stamps: seq<bytes>, calls: seq<Call>, lines: seq<bytes>)
    requires |stamps| == |calls|
  {
    |lines| == |calls| && forall i :: 0 <= i < |calls| ==> LineShows(c, stamps[i], calls[i], lines[i])
  }

  /** Every timestamp is a reading of the clock. */
  ghost predicate Readings(clock: nat -> bytes, stamps: seq<bytes>) {
    forall i :: 0 <= i < |stamps| ==> exists n: nat :: stamps[i] == clock(n)
  }

  lemma NoReadings(clock: nat -> bytes)
    ensures Readings(clock, [])
  {
  }

  lemma MoreReadings(clock: nat -> bytes, stamps: seq<bytes>, n: nat, k: nat)
    requires Readings(clock, stamps)
    ensures Readings(clock, stamps + Zeros(clock(n), k))
  {
  }

  lemma SameStamp(c: Config, ts: bytes, calls: seq<Call>)
    ensures Lines(c, ts, calls) == LinesAt(c, Zeros(ts, |calls|), calls)
  {
    hide LineOf, Fresh;
  }

  lemma MoreLines(c: Config, stamps: seq<bytes>, more: seq<bytes>, done: seq<Call>, one: seq<Call>)
    requires |stamps| == |done| && |more| == |one|
    ensures LinesAt(c, stamps + more, done + one) == LinesAt(c, stamps, done) + LinesAt(c, more, one)
  {
    hide LineOf, Fresh;
  }

  class Worker {
    const sys: System
    const log: Rotation.LogFile
    var buf: bytes
    ghost var stream: bytes    // everything handed to writeOut

    ghost predicate Valid()
      reads this, sys, sys.Entries(), log
    {
      && sys.Valid() && log.Valid()
      && |buf| < sys.config.threshold
    }

    /** Timestamps as the formatter accepts them. */
    ghost predicate Stamp(ts: bytes)
      reads this
    {
      sys.config.json ==> JsonLine.TimestampOk(sys.config.format, ts)
    }

    constructor (sys: System, log: Rotation.LogFile)
      requires sys.Valid() && log.Valid() && sys.config.threshold >= 1
      ensures Valid() && this.sys == sys && this.log == log && buf == [] && stream == []
    {
      this.sys, this.log := sys, log;
      buf, stream := [], [];
    }

    /** case e := <-logCh: one batch, and a write with its rotation check once
        the buffer reaches FlushThreshold. */
    method OnEntry(ts: bytes, failing: set<Rotation.Name>, turns: seq<seq<Attempt>>)
      returns (ghost late: Arrived, ghost done: seq<Call>, ghost out: seq<Entry>)
      requires Valid() && sys.queue != [] && Stamp(ts)
      modifies this`buf, this`stream, log, sys, sys.Entries()
      ensures Valid() && Moved(old(sys.Now()), sys.Now(), late, done, out)
      ensures forall e :: e in sys.Entries() && e !in old(sys.Entries()) ==> fresh(e)
      ensures EndsBatch(sys.config.threshold, old(buf), Lines(sys.config, ts, done + sys.sent), |done|)
      ensures sys.config.format.Valid() ==> LinesShow(sys.config, ts, done, Lines(sys.config, ts, done))
      ensures var text := old(buf) + Concat(Lines(sys.config, ts, done));
              && stream == old(stream) + (if |text| >= sys.config.threshold then text else [])
              && buf == (if |text| >= sys.config.threshold then [] else text)
      ensures if stream == old(stream) then log.fs == old(log.fs)
              else buf == [] && log.fs == Written(old(log.fs), stream[|old(stream)|..], failing, old(log.nextId))
    {
      hide System.Valid, System.Now, System.Entries, Moved, Rotation.Ordered, Written, LineOf, Fresh, Concat, EndsBatch;
      hide Format.Valid, LinesShow;
      buf, late, done, out := sys.FormatBatch(buf, ts, turns);
      Assoc(stream, old(buf), Concat(Lines(sys.config, ts, done)));
      if |buf| >= sys.config.threshold {
        assert (stream + buf)[|stream|..] == buf && stream + buf + [] == stream + buf;
        WriteAndCheck(failing);
      }
    }

    /** writeOut, buf = buf[:0] and rotateIfNeeded. */
    method WriteAndCheck(failing: set<Rotation.Name>)
      requires log.Valid() && buf != []
      modifies this`buf, this`stream, log
      ensures log.Valid() && buf == [] && stream == old(stream + buf) && stream != old(stream)
      ensures log.fs == Written(old(log.fs), old(buf), failing, old(log.nextId))
    {
      log.WriteChecked(buf, failing);
      assert |stream + buf| > |stream|;
      stream := stream + buf;
      buf := [];
    }

    /** The files after a checked write. */
    ghost function Written(fs: Rotation.FileSystem, text: bytes, failing: set<Rotation.Name>, id: nat)
      : Rotation.FileSystem
      requires Rotation.Live in fs
    {
      var grown := Rotation.AppendLive(fs, text);
      if log.maxFileSize > 0 && |grown[Rotation.Live].text| >= log.maxFileSize
      then Rotation.RotateFs(grown, log.maxBackups, failing, id)
      else grown
    }

    /** case <-ticker.C */
    method OnTick(failing: set<Rotation.Name>)
      requires Valid()
      modifies this`buf, this`stream, log
      ensures Valid() && buf == [] && stream == old(stream + buf)
      ensures log.fs == if old(buf) == [] then old(log.fs)
                        else Written(old(log.fs), old(buf), failing, old(log.nextId))
    {
      hide System.HeldOk, System.QueuedOk, System.PooledOk, Rotation.Ordered, Written;
      if |buf| > 0 {
        WriteAndCheck(failing);
      } else {
        assert stream + buf == stream;
      }
    }

    /** One turn of the drain loops: a batch, and a write without a rotation
        check once the buffer reaches FlushThreshold. */
    method DrainBatch(ts: bytes, turns: seq<seq<Attempt>>)
      returns (ghost late: Arrived, ghost done: seq<Call>, ghost out: seq<Entry>)
      requires Valid() && sys.queue != [] && Stamp(ts)
      modifies this`buf, this`stream, log, sys, sys.Entries()
      ensures Valid() && Moved(old(sys.Now()), sys.Now(), late, done, out) && (turns == [] ==> late == NOTHING)
      ensures forall e :: e in sys.Entries() && e !in old(sys.Entries()) ==> fresh(e)
      ensures EndsBatch(sys.config.threshold, old(buf), Lines(sys.config, ts, done + sys.sent), |done|)
      ensures stream + buf == old(stream + buf) + Concat(LinesAt(sys.config, Zeros(ts, |done|), done))
      ensures old(stream) <= stream && log.fs == Rotation.AppendLive(old(log.fs), stream[|old(stream)|..])
    {
      hide System.Valid, System.Now, System.Entries, Moved, EndsBatch;
      hide Rotation.Ordered, Rotation.AppendLive, LineOf, Fresh, Concat;
      AppendNothing(log.fs);
      buf, late, done, out := sys.FormatBatch(buf, ts, turns);
      SameStamp(sys.config, ts, done);
      Assoc(stream, old(buf), Concat(Lines(sys.config, ts, done)));
      assert stream[|stream|..] == [];
      if |buf| >= sys.config.threshold {
        assert (stream + buf)[|stream|..] == buf && stream + buf + [] == stream + buf;
        WriteOut();
      }
    }

    /** A batch, and the producers' turns before the worker looks at the channel
        again. */
    method DrainTurn(ts: bytes, turns: seq<seq<Attempt>>)
      returns (ghost late: Arrived, ghost done: seq<Call>, ghost out: seq<Entry>)
      requires Valid() && sys.queue != [] && Stamp(ts)
      modifies this`buf, this`stream, log, sys, sys.Entries()
      ensures Valid() && Moved(old(sys.Now()), sys.Now(), late, done, out) && done != []
      ensures turns == [] ==> |sys.queue| < old(|sys.queue|)
      ensures forall e :: e in sys.Entries() && e !in old(sys.Entries()) ==> fresh(e)
      ensures stream + buf == old(stream + buf) + Concat(LinesAt(sys.config, Zeros(ts, |done|), done))
      ensures old(stream) <= stream && log.fs == Rotation.AppendLive(old(log.fs), stream[|old(stream)|..])
    {
      hide System.Valid, System.Entries, Moved, Together, Rotation.Ordered, Rotation.AppendLive, LinesAt, Concat;
      ghost var first := sys.Now();
      late, done, out := DrainBatch(ts, turns);
      ghost var mid := sys.Now();
      ghost var more := sys.Attempts(if turns == [] then [] else turns[0]);
      MovedTwice(first, mid, late, done, out, sys.Now(), more, [], []);
      FewerQueued(first, sys.Now(), Together(late, more), done, out);
      late := Together(late, more);
    }

    /** The loop that serves a Flush request, and drainAndFlush on the way out:
        batch after batch until the channel is empty, with `clock` the timestamp
        of each and `turns` those of the producers in its gaps. Everything taken
        is written, in order, without a rotation. */
    method Drain(clock: nat -> bytes, turns: seq<seq<seq<Attempt>>>)
      returns (ghost stamps: seq<bytes>, ghost late: Arrived, ghost done: seq<Call>, ghost out: seq<Entry>)
      requires Valid() && forall n :: Stamp(clock(n))
      modifies this`buf, this`stream, log, sys, sys.Entries()
      ensures Valid() && Moved(old(sys.Now()), sys.Now(), late, done, out)
      ensures forall e :: e in sys.Entries() && e !in old(sys.Entries()) ==> fresh(e)
      ensures sys.queue == [] && sys.sent == [] && buf == [] && done == old(sys.sent) + late.calls
      ensures |stamps| == |done| && Readings(clock, stamps)
      ensures sys.config.format.Valid() ==> LinesAtShow(sys.config, stamps, done, LinesAt(sys.config, stamps, done))
      ensures var text := old(buf) + Concat(LinesAt(sys.config, stamps, done));
              && stream == old(stream) + text
              && log.fs == Rotation.AppendLive(old(log.fs), text)
    {
      hide System.Valid, System.Entries, Moved, Together, JsonLine.TimestampOk;
      hide Rotation.Ordered, Rotation.AppendLive, LinesAt, Concat, Readings, Format.Valid, LinesAtShow;
      ghost var first, before := sys.Now(), stream;
      var batches := 0;
      stamps, late, done, out := [], NOTHING, [], [];
      NotMoved(first);
      NoLines(sys.config);
      assert Readings(clock, []) by { NoReadings(clock); }
      AppendNothing(log.fs);
      assert before[|before|..] == [] && stream + (buf + []) == stream + buf;
      while sys.queue != []
        invariant Valid() && Moved(first, sys.Now(), late, done, out)
        invariant forall e :: e in sys.Entries() && e !in old(sys.Entries()) ==> fresh(e)
        invariant |stamps| == |done| && Readings(clock, stamps)
        invariant stream + buf == before + (old(buf) + Concat(LinesAt(sys.config, stamps, done)))
        invariant before <= stream && log.fs == Rotation.AppendLive(old(log.fs), stream[|before|..])
        decreases if batches < |turns| then |turns| - batches else 0, |sys.queue|
      {
        ghost var ts, now, mid := clock(batches), sys.Now(), stream;
        ghost var more, one, gone := DrainTurn(clock(batches), if batches < |turns| then turns[batches] else []);
        MovedTwice(first, now, late, done, out, sys.Now(), more, one, gone);
        MoreText(sys.config, stamps, Zeros(ts, |one|), done, one, before, old(buf));
        AppendTwice(old(log.fs), mid[|before|..], stream[|mid|..]);
        assert mid[|before|..] + stream[|mid|..] == stream[|before|..];
        MoreReadings(clock, stamps, batches, |one|);
        stamps := stamps + Zeros(ts, |one|);
        late, done, out := Together(late, more), done + one, out + gone;
        batches := batches + 1;
      }
      sys.OneCallEach();
      AllTaken(first, sys.Now(), late, done, out);
      ghost var mid := stream;
      if |buf| > 0 {
        AppendTwice(old(log.fs), mid[|before|..], buf);
        assert mid[|before|..] + buf == (mid + buf)[|before|..];
        WriteOut();
      } else {
        assert stream + buf == stream;
      }
      ghost var text := old(buf) + Concat(LinesAt(sys.config, stamps, done));
      assert (before + text)[|before|..] == text;
      if sys.config.format.Valid() {
        LinesAtShown(clock, stamps, done);
      }
    }

    lemma LinesAtShown(clock: nat -> bytes, stamps: seq<bytes>, calls: seq<Call>)
      requires sys.config.format.Valid() && |stamps| == |calls| && Readings(clock, stamps)
      requires forall n :: Stamp(clock(n))
      ensures LinesAtShow(sys.config, stamps, calls, LinesAt(sys.config, stamps, calls))
    {
      hide LineShows, LineOf, Fresh, Format.Valid, JsonLine.TimestampOk;
      forall i | 0 <= i < |calls|
        ensures LineShows(sys.config, stamps[i], calls[i], LinesAt(sys.config, stamps, calls)[i])
      {
        var n: nat :| stamps[i] == clock(n);
        assert Stamp(clock(n));
        CallShown(sys.config, stamps[i], calls[i]);
      }
    }

    /** writeOut and buf = buf[:0], without a rotation check. */
    method WriteOut()
      requires log.Valid()
      modifies this`buf, this`stream, log
      ensures log.Valid() && buf == [] && stream == old(stream + buf)
      ensures log.fs == Rotation.AppendLive(old(log.fs), old(buf))
    {
      log.WriteOut(buf);
      stream := stream + buf;
      buf := [];
    }
  }

  /** An empty channel: everything that was there or arrived has been taken. */
  lemma AllTaken(s: Snapshot, t: Snapshot, late: Arrived, done: seq<Call>, out: seq<Entry>)
    requires Moved(s, t, late, done, out) && |t.sent| == |t.queue| == 0
    ensures done == s.sent + late.calls && t.sent == []
  {
  }

  lemma FewerQueued(s: Snapshot, t: Snapshot, late: Arrived, done: seq<Call>, out: seq<Entry>)
    requires Moved(s, t, late, done, out) && done != []
    ensures late == NOTHING ==> |t.queue| < |s.queue|
  {
    assert |s.queue + late.entries| == |out + t.queue|;
  }

  lemma NoLines(c: Config)
    ensures Concat(LinesAt(c, [], [])) == []
  {
    assert LinesAt(c, [], []) == [];
  }

  lemma MoreText(c: Config, stamps: seq<bytes>, more: seq<bytes>, done: seq<Call>, one: seq<Call>,
                 first: bytes, buf: bytes)
    requires |stamps| == |done| && |more| == |one|
    ensures first + (buf + Concat(LinesAt(c, stamps + more, done + one))) ==
            first + (buf + Concat(LinesAt(c, stamps, done))) + Concat(LinesAt(c, more, one))
  {
    hide Concat, LinesAt;
    var a, b := LinesAt(c, stamps, done), LinesAt(c, more, one);
    MoreLines(c, stamps, more, done, one);
    ConcatConcat(a, b);
    Assoc(buf, Concat(a), Concat(b));
    Assoc(first, buf + Concat(a), Concat(b));
  }

  lemma AppendNothing(fs: Rotation.FileSystem)
    requires Rotation.Live in fs
    ensures Rotation.AppendLive(fs, []) == fs
  {
    assert fs[Rotation.Live].text + [] == fs[Rotation.Live].text;
  }

  lemma AppendTwice(fs: Rotation.FileSystem, a: bytes, b: bytes)
    requires Rotation.Live in fs
    ensures Rotation.Live in Rotation.AppendLive(fs, a)
    ensures Rotation.AppendLive(Rotation.AppendLive(fs, a), b) == Rotation.AppendLive(fs, a + b)
  {
    Assoc(fs[Rotation.Live].text, a, b);
  }
}
