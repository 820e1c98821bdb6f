/** A redactor from its first delta to its flush. */
module Streaming {
  import opened Substitution
  import opened Chunking
  import opened Hold
  import opened Redactor

  /** Feed every delta and flush: what comes out, together with the statistics, is
      what the run over the deltas says, whatever the hold; and when the text's runs
      fit the hold it is the redaction of the text. */
  method StreamText(redactor: StreamingRedactor, chunks: seq<string>) returns (out: string)
    requires redactor.Valid() && redactor.absorbed == "" && redactor.sent == [] && redactor.peakBuffer == 0
    modifies redactor
    ensures redactor.Valid() && redactor.buffer == "" && redactor.absorbed == Joined(chunks)
    ensures out == Output(redactor.cfg, chunks) && redactor.emittedChars == |out|
    ensures redactor.peakBuffer == Peak(redactor.cfg, chunks)
    ensures RunsWithin(redactor.cfg.u, Joined(chunks), redactor.cfg.hold) ==>
              out == Substitute(redactor.cfg, Joined(chunks))
  {
    hide Released, Retained, Substitute, Source, HiddenCount, RunsWithin;
    ghost var cfg := redactor.cfg;
    out := "";
    for i := 0 to |chunks|
      invariant redactor.Valid() && redactor.absorbed == Joined(chunks[..i])
      invariant Stream(redactor.buffer, redactor.sent) == FeedAll(cfg, chunks[..i])
      invariant redactor.peakBuffer == Peak(cfg, chunks[..i])
      invariant out == Render(redactor.sent)
    {
      assert chunks[..i + 1][..i] == chunks[..i];
      var safe := redactor.Feed(chunks[i]);
      out := out + safe;
    }
    assert chunks[..|chunks|] == chunks;
    var tail := redactor.Flush();
    out := out + tail;
    if RunsWithin(cfg.u, Joined(chunks), cfg.hold) {
      ChunkIndependence(cfg, chunks);
    }
  }
}
