/** The bounded buffer a command's output is drained into. */
module Output {

  /** What a buffer with this limit keeps of a stream. */
  function Kept(limit: int, stream: string): string {
    if limit <= 0 then "" else if |stream| <= limit then stream else stream[..limit]
  }

  function Concat(chunks: seq<string>): string {
    if chunks == [] then "" else chunks[0] + Concat(chunks[1..])
  }

  lemma {:induction false} ConcatSnoc(chunks: seq<string>, chunk: string)
    ensures Concat(chunks + [chunk]) == Concat(chunks) + chunk
  {
    if chunks == [] {
      assert Concat([chunk][1..]) == "";
    } else {
      assert (chunks + [chunk])[1..] == chunks[1..] + [chunk];
      ConcatSnoc(chunks[1..], chunk);
    }
  }

  class CappedBuffer {
    const limit: int
    var buffer: string
    var total: nat
    /** Everything written so far. */
    ghost var stream: string

    ghost predicate Valid()
      reads this
    {
      buffer == Kept(limit, stream) && total == |stream|
    }

    constructor (limit: int)
      ensures Valid() && stream == "" && this.limit == limit
    {
      this.limit := limit;
      buffer, total, stream := "", 0, "";
    }

    method Write(chunk: string) returns (written: nat)
      requires Valid()
      modifies this
      ensures Valid() && stream == old(stream) + chunk
      ensures written == |chunk|
    {
      written := |chunk|;
      total := total + written;
      var room := limit - |buffer|;
      if room > 0 {
        var kept := chunk;
        if written > room {
          kept := chunk[..room];
        }
        buffer := buffer + kept;
      }
      stream := stream + chunk;
    }

    /** io.Copy, for as long as the stream delivers. */
    method Drain(chunks: seq<string>)
      requires Valid()
      modifies this
      ensures Valid() && stream == old(stream) + Concat(chunks)
    {
      for i := 0 to |chunks|
        invariant Valid() && stream == old(stream) + Concat(chunks[..i])
      {
        assert chunks[..i + 1] == chunks[..i] + [chunks[i]];
        ConcatSnoc(chunks[..i], chunks[i]);
        var _ := Write(chunks[i]);
      }
      assert chunks[..|chunks|] == chunks;
    }
  }

  /** The text kept when `early` had been drained and the count taken after `late` as well: the text
      is still the beginning of the stream, the count never falls short of it, and truncation is
      reported exactly when the text is not the whole stream. */
  lemma LateDrain(limit: int, early: string, late: string)
    ensures var text, total := Kept(limit, early), |early + late|;
            && text <= Kept(limit, early + late) <= early + late
            && |text| <= total
            && (total > |text| <==> text != early + late)
  {
    assert Kept(limit, early) <= early;
  }

  /** Without late output, truncation is reported exactly when more was written than is kept. */
  lemma TruncationIsOverflow(limit: int, stream: string)
    requires limit > 0
    ensures |stream| > |Kept(limit, stream)| <==> |stream| > limit
    ensures |Kept(limit, stream)| == if |stream| < limit then |stream| else limit
  {
  }
}
