/**
 * How an exact read fails: too few bytes, or something else in their place.
 */
module ShortReads {
  import opened Transport
  import opened ExactRead

  /** On a clean line with too few bytes to come, all of them are taken, and the deadline passes. */
  lemma {:induction false} ReadExactShort(codes: ErrorCodes, link: Input, want: nat)
    requires link.Clean() && |link.incoming| < want
    ensures var r := ReadExact(codes, link, want);
            r.rc == codes.onNoData && r.bytes == link.incoming && r.link.incoming == []
    decreases link.Size()
  {
    var (r, link') := Read(link, want);
    ReadOfClean(link, want);
    if r.Data? {
      ReadExactShort(codes, link', want - |r.bytes|);
    } else if r.event.Interrupted? {
      ReadExactShort(codes, link', want);
    }
  }

  /** The first thing that happens instead of data decides the code. */
  lemma ReadExactStopped(codes: ErrorCodes, link: Input, want: nat)
    requires want > 0 && link.schedule != []
    ensures var r, e := ReadExact(codes, link, want), link.schedule[0];
            (e.Failed? ==> r.rc == codes.onFailed) && (e.Closed? ==> r.rc == codes.onClosed) &&
            (e.NoData? ==> r.rc == codes.onNoData) &&
            (e.Failed? || e.Closed? || e.NoData? ==> r.bytes == [] && r.link.incoming == link.incoming)
  {
  }
}
