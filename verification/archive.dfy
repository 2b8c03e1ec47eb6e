/**
 * `untar`: collect the entries of a tar stream in memory. The tar format
 * itself, the piping and the backpressure belong to the `tar-stream` library
 * and are not part of this model; what remains is the sequence of events the
 * library delivers: for each entry its header and its data chunks, then either
 * `finish` or `error`.
 */
module Archive {

  import opened Basics
  import opened OtaTypes

  /** The header fields of a tar entry the provider looks at. */
  datatype TarHeader = TarHeader(name: string)

  /** One `entry` event: the header, then the `data` chunks up to `end`. */
  datatype TarEntry = TarEntry(headers: TarHeader, chunks: seq<Bytes>)

  /** How the extraction stream stops. */
  datatype Ending = Finished | Errored(reason: string)

  /** Everything the library emits for one archive, in order. */
  datatype TarEvents = TarEvents(entries: seq<TarEntry>, ending: Ending)

  /** A collected entry: its header and all of its data. */
  datatype ExtractedFile = ExtractedFile(headers: TarHeader, data: Bytes)

  function TotalLength(chunks: seq<Bytes>): nat
  {
    if |chunks| == 0 then 0 else TotalLength(chunks[..|chunks| - 1]) + |chunks[|chunks| - 1]|
  }

  /** `Buffer.concat(buffers)`: the chunks joined in arrival order. */
  function Concat(chunks: seq<Bytes>): (r: Bytes)
    ensures |r| == TotalLength(chunks)
  {
    if |chunks| == 0 then [] else Concat(chunks[..|chunks| - 1]) + chunks[|chunks| - 1]
  }

  /** How the chunks of an entry are cut does not change its data. */
  lemma {:induction false} ConcatAppend(a: seq<Bytes>, b: seq<Bytes>)
    ensures Concat(a + b) == Concat(a) + Concat(b)
  {
    if |b| == 0 {
      assert a + b == a;
    } else {
      var b' := b[..|b| - 1];
      assert (a + b)[..|a + b| - 1] == a + b';
      ConcatAppend(a, b');
    }
  }

  /** An entry delivered in one chunk holds exactly that chunk. */
  lemma ConcatSingle(c: Bytes)
    ensures Concat([c]) == c
  {
    assert [c][..0] == [];
  }

  function Collected(entry: TarEntry): ExtractedFile
  {
    ExtractedFile(entry.headers, Concat(entry.chunks))
  }

  /**
   * The entries collected from a sequence of `entry` events: one file per
   * entry, in the order met, each holding its chunks joined in order.
   */
  function Collect(entries: seq<TarEntry>): (files: seq<ExtractedFile>)
    ensures |files| == |entries|
    ensures forall i :: 0 <= i < |entries| ==>
              files[i].headers == entries[i].headers && files[i].data == Concat(entries[i].chunks)
  {
    if |entries| == 0 then []
    else Collect(entries[..|entries| - 1]) + [Collected(entries[|entries| - 1])]
  }

  /** Collecting two runs of entries one after the other concatenates their files. */
  lemma CollectAppend(a: seq<TarEntry>, b: seq<TarEntry>)
    ensures Collect(a + b) == Collect(a) + Collect(b)
  {
    var l, r := Collect(a + b), Collect(a) + Collect(b);
    assert |l| == |r|;
    forall i | 0 <= i < |l| ensures l[i] == r[i] {
      if i < |a| { assert (a + b)[i] == a[i]; } else { assert (a + b)[i] == b[i - |a|]; }
    }
  }

  /**
   * What the `untar` promise settles to: all collected files on `finish`,
   * a rejection on `error`, never a partial list.
   */
  function Extracted(events: TarEvents): (r: Result<seq<ExtractedFile>>)
    ensures r.Ok? <==> events.ending == Finished
    ensures r.Ok? ==> r.value == Collect(events.entries)
    ensures events.ending.Errored? ==> r == Err(ArchiveError(events.ending.reason))
  {
    match events.ending
    case Finished => Ok(Collect(events.entries))
    case Errored(reason) => Err(ArchiveError(reason))
  }

  /**
   * The event handlers of `untar`, run over the delivered events: `buffers`
   * grows by one chunk per `data` event, `result` by one file per `end`.
   */
  method Untar(events: TarEvents) returns (r: Result<seq<ExtractedFile>>)
    ensures r == Extracted(events)
  {
    var entries := events.entries;
    var result: seq<ExtractedFile> := [];
    var i := 0;
    while i < |entries|
      invariant 0 <= i <= |entries|
      invariant result == Collect(entries[..i])
    {
      var entry := entries[i];
      var buffers: seq<Bytes> := [];
      var j := 0;
      while j < |entry.chunks|
        invariant 0 <= j <= |entry.chunks|
        invariant buffers == entry.chunks[..j]
      {
        buffers := buffers + [entry.chunks[j]];
        j := j + 1;
      }
      assert buffers == entry.chunks;
      result := result + [ExtractedFile(entry.headers, Concat(buffers))];
      assert entries[..i + 1][..i] == entries[..i];
      i := i + 1;
    }
    assert entries[..i] == entries;
    match events.ending
    case Finished =>
      r := Ok(result);
    case Errored(reason) =>
      r := Err(ArchiveError(reason));
  }
}
