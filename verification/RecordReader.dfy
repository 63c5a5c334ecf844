/**
 The chunk cursor of cyber/record/record_reader.cc over a file given as a sequence of
 sections: chunk headers are used to skip bodies and to stop early, and a consumed header
 is not read again.
 */
module RecordReader {
  import opened RecordStream

  /** What one read of the interval [lo, hi] found on its way from message n to message n':
      the next message in the interval, with only older ones before it, or only older ones
      and then the end, a newer one, or nothing but older ones. */
  ghost predicate Found(source: seq<Msg>, n: nat, n': nat, ok: bool, m: Msg, lo: nat, hi: nat) {
    && n <= n' <= |source|
    && (ok ==> n < n' && m == source[n' - 1] && lo <= m.time <= hi && TooOld(source, n, n' - 1, lo))
    && (!ok ==> TooOld(source, n, n', lo))
    && (!ok ==> n' == |source| || source[n'].time > hi || TooOld(source, n', |source|, lo))
  }

  /** The messages from a up to b are too old. */
  ghost predicate TooOld(source: seq<Msg>, a: nat, b: nat, lo: nat) {
    b <= |source| && forall k | a <= k < b :: source[k].time < lo
  }

  class RecordReader {
    const file: seq<Section>
    const isValid: bool
    const begin: nat    // header_.begin_time()
    const end: nat      // header_.end_time()
    var pos: nat        // the file reader's position
    var chunk: seq<Msg>
    var messageIndex: nat
    var reachEnd: bool
    ghost const source: seq<Msg>  // all messages of the file; none without a file
    ghost var next: nat           // the first message of source not passed over yet
    ghost var ahead: nat          // the first message of source not yet in a chunk

    /** The file is well formed; a reader without a file has no messages. */
    ghost predicate FileOk() {
      && source == (if isValid then Stream(file, 0) else [])
      && (isValid ==> Accurate(file, 0))
    }

    /** The file header bounds the times of all messages. */
    ghost predicate BoundsOk() {
      Bounded(source, begin, end) && (!isValid ==> source == [])
    }

    /** The sections from pos on hold the messages from `ahead` on. */
    ghost predicate AheadOk()
      reads this`pos, this`ahead, this`reachEnd
    {
      && pos <= |file| && ahead <= |source|
      && (isValid ==> if reachEnd then ahead == |source| else Ahead(file, pos, source, ahead))
    }

    /** The chunk holds the messages from `next` up to `ahead`. */
    ghost predicate ChunkOk()
      reads this`chunk, this`messageIndex, this`next, this`ahead
    {
      && messageIndex <= |chunk| && ahead <= |source|
      && next + (|chunk| - messageIndex) == ahead
      && chunk[messageIndex..] == source[next..ahead]
    }

    ghost predicate Valid()
      reads this
    {
      AheadOk() && ChunkOk()
    }

    constructor (file: seq<Section>, isValid: bool, begin: nat, end: nat)
      requires isValid ==> Accurate(file, 0)
      ensures FileOk() && Valid() && next == 0
      ensures BoundsOk() <==> !isValid || Bounded(Stream(file, 0), begin, end)
      ensures this.file == file && this.isValid == isValid && this.begin == begin && this.end == end
    {
      this.file, this.isValid, this.begin, this.end := file, isValid, begin, end;
      source := if isValid then Stream(file, 0) else [];
      pos, chunk, messageIndex, reachEnd := 0, [], 0, false;
      next, ahead := 0, 0;
    }

    method Reset()
      requires FileOk()
      modifies this
      ensures Valid() && next == 0
    {
      pos := 0;
      reachEnd := false;
      messageIndex := 0;
      chunk := [];
      next, ahead := 0, 0;
    }

    /** Finds the next body.  The messages passed over are too old; on failure the next
        message ahead, if any, is too new. */
    method ReadNextChunk(beginTime: nat, endTime: nat) returns (ok: bool)
      requires AheadOk() && isValid
      modifies this`pos, this`chunk, this`reachEnd, this`ahead
      ensures AheadOk() && ahead >= old(ahead)
      ensures ok ==> pos > old(pos) && ahead >= old(ahead) + |chunk|
      ensures ok ==> TooOld(source, old(ahead), ahead - |chunk|, beginTime) && chunk == source[ahead - |chunk|..ahead]
      ensures !ok ==> chunk == old(chunk) && TooOld(source, old(ahead), ahead, beginTime)
      ensures !ok ==> ahead == |source| || source[ahead].time > endTime
    {
      var skip := false;
      while !reachEnd
        invariant old(pos) <= pos && old(ahead) <= ahead && AheadOk() && chunk == old(chunk)
        invariant TooOld(source, old(ahead), ahead, beginTime)
        invariant skip && !reachEnd ==>
                    pos < |file| && file[pos].BodySection? && AllBelow(file[pos].msgs, beginTime)
        decreases |file| - pos, !reachEnd
      {
        if pos == |file| {
          return false;
        }
        var section := file[pos];
        pos := pos + 1;
        match section {
          case IndexSection =>
            reachEnd := true;
          case ChannelSection =>
          case HeaderSection(b, e) =>
            PassHeader(file, pos - 1, source, ahead);
            if e < beginTime {
              skip := true;
            }
            if b > endTime {
              return false;
            }
          case BodySection(msgs) =>
            PassBody(file, pos - 1, source, ahead, ahead + |msgs|);
            ahead := ahead + |msgs|;
            if !skip {
              chunk := msgs;
              return true;
            }
            skip := false;
        }
      }
      ok := false;
    }

    /** The loop of ReadMessage over the current chunk: stops at the first message that is
        not too old, or runs out. */
    method ScanChunk(beginTime: nat, endTime: nat) returns (stop: bool, ok: bool, message: Msg)
      requires ChunkOk()
      modifies this`messageIndex, this`next
      ensures ChunkOk() && old(next) <= next
      ensures ok ==>
                && stop && old(next) < next && message == source[next - 1]
                && beginTime <= message.time <= endTime && TooOld(source, old(next), next - 1, beginTime)
      ensures !ok ==> TooOld(source, old(next), next, beginTime)
      ensures stop && !ok ==> next < |source| && source[next].time > endTime
      ensures !stop ==> messageIndex == |chunk|
    {
      message := Msg(0, "", "");
      while messageIndex < |chunk|
        modifies this`messageIndex, this`next
        invariant ChunkOk() && old(next) <= next && TooOld(source, old(next), next, beginTime)
      {
        var m := chunk[messageIndex];
        assert m == chunk[messageIndex..][0] == source[next..ahead][0] == source[next];
        if m.time > endTime {
          return true, false, message;
        }
        assert chunk[messageIndex + 1..] == chunk[messageIndex..][1..];
        assert source[next + 1..ahead] == source[next..ahead][1..];
        messageIndex := messageIndex + 1;
        next := next + 1;
        if m.time >= beginTime {
          return true, true, m;
        }
      }
      stop, ok := false, false;
    }

    /** The interval has nothing of what the file header covers. */
    predicate Outside(beginTime: nat, endTime: nat) {
      beginTime > end || endTime < begin
    }

    /** The next message in the closed interval, if it comes before any newer one.  What is
        passed over is too old, and nothing else is lost.  An interval outside the file header
        is not looked at, which makes no difference if that header bounds all times. */
    method ReadMessage(beginTime: nat, endTime: nat) returns (ok: bool, message: Msg)
      requires Valid()
      modifies this`pos, this`chunk, this`messageIndex, this`reachEnd, this`next, this`ahead
      ensures Valid()
      ensures Outside(beginTime, endTime) ==> !ok && next == old(next)
      ensures BoundsOk() || (isValid && !Outside(beginTime, endTime)) ==>
                Found(source, old(next), next, ok, message, beginTime, endTime)
      decreases |file| - pos
    {
      if !isValid || Outside(beginTime, endTime) {
        return false, Msg(0, "", "");
      }
      var stop;
      stop, ok, message := ScanChunk(beginTime, endTime);
      if stop {
        return;
      }
      ok := LoadChunk(beginTime, endTime);
      if ok {
        ok, message := ReadMessage(beginTime, endTime);
      }
    }

    /** The second half of ReadMessage: on to the next body. */
    method LoadChunk(beginTime: nat, endTime: nat) returns (ok: bool)
      requires Valid() && isValid && messageIndex == |chunk|
      modifies this`pos, this`chunk, this`messageIndex, this`reachEnd, this`next, this`ahead
      ensures Valid() && old(next) <= next && TooOld(source, old(next), next, beginTime)
      ensures ok ==> pos > old(pos)
      ensures !ok ==> next == |source| || source[next].time > endTime
    {
      ok := ReadNextChunk(beginTime, endTime);
      if ok {
        messageIndex := 0;
        next := ahead - |chunk|;
        assert chunk[0..] == chunk == source[next..ahead];
      } else {
        next := ahead;
        assert chunk[messageIndex..] == [] == source[next..ahead];
      }
    }
  }
}
