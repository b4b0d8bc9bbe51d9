/**
 Reassembly of chunked API responses.  Chunks of any number of responses arrive interleaved; each
 cid has its own buffer until the chunk with the fin flag completes the body.
 */
module ApiStreams {
  import opened Bytes
  import opened Wire

  type Streams = map<int, seq<seq<Byte>>>

  /** One inbound chunk. */
  type Chunk = f: WireFrame | f.ApiChunk? witness ApiChunk(0, 0, false, [])

  function Concat(chunks: seq<seq<Byte>>): (body: seq<Byte>)
  {
    if chunks == [] then [] else Concat(chunks[..|chunks| - 1]) + chunks[|chunks| - 1]
  }

  function Buffered(streams: Streams, cid: int): (chunks: seq<seq<Byte>>) {
    if cid in streams then streams[cid] else []
  }

  /** Buffer a chunk, or, on the fin chunk, clear the buffer. */
  function Store(streams: Streams, f: Chunk): (streams': Streams) {
    if f.fin then streams - {f.cid} else streams[f.cid := Buffered(streams, f.cid) + [f.payload]]
  }

  /** The body a fin chunk completes: the buffered chunks and its own payload. */
  function Body(streams: Streams, f: Chunk): (body: seq<Byte>) {
    Concat(Buffered(streams, f.cid) + (if |f.payload| > 0 then [f.payload] else []))
  }

  /** Add up the lengths, then copy chunk after chunk. */
  method Assemble(chunks: seq<seq<Byte>>) returns (body: seq<Byte>)
    ensures body == Concat(chunks)
  {
    var total := 0;
    for i := 0 to |chunks|
      invariant total == |Concat(chunks[..i])|
    {
      assert chunks[..i + 1][..i] == chunks[..i];
      total := total + |chunks[i]|;
    }
    body := [];
    for i := 0 to |chunks|
      invariant body == Concat(chunks[..i])
    {
      assert chunks[..i + 1][..i] == chunks[..i];
      body := body + chunks[i];
    }
    assert chunks[..|chunks|] == chunks;
    assert |body| == total;
  }

  // --------------------------------------------------------------------- histories

  function After(h: seq<Chunk>): (streams: Streams) {
    if h == [] then map[] else Store(After(h[..|h| - 1]), h[|h| - 1])
  }

  /** The payloads of a cid since its last fin, in order, as one string. */
  function SinceFin(h: seq<Chunk>, cid: int): (body: seq<Byte>) {
    if h == [] then []
    else
      var f := h[|h| - 1];
      if f.cid != cid then SinceFin(h[..|h| - 1], cid)
      else if f.fin then []
      else SinceFin(h[..|h| - 1], cid) + f.payload
  }

  /** The last chunk of a cid, if any, was not a fin. */
  predicate Unfinished(h: seq<Chunk>, cid: int) {
    h != [] &&
    if h[|h| - 1].cid == cid then !h[|h| - 1].fin else Unfinished(h[..|h| - 1], cid)
  }

  lemma ConcatSnoc(chunks: seq<seq<Byte>>, c: seq<Byte>)
    ensures Concat(chunks + [c]) == Concat(chunks) + c
  {
    assert (chunks + [c])[..|chunks|] == chunks;
  }

  /** After any interleaving a cid is buffered exactly while it is unfinished, and its buffer holds
      exactly its own payloads since its last fin. */
  lemma {:induction false} BuffersAreSeparate(h: seq<Chunk>, cid: int)
    ensures cid in After(h) <==> Unfinished(h, cid)
    ensures Concat(Buffered(After(h), cid)) == SinceFin(h, cid)
  {
    if h != [] {
      var before, f := h[..|h| - 1], h[|h| - 1];
      BuffersAreSeparate(before, cid);
      if f.cid == cid && !f.fin {
        ConcatSnoc(Buffered(After(before), cid), f.payload);
      }
    }
  }

  /**
   The body a fin completes, after any interleaved history, is the in-order concatenation of that
   cid's payloads since its previous fin; its buffer is then gone and no other buffer changed.
   */
  lemma FinCompletesBody(h: seq<Chunk>, f: Chunk)
    requires f.fin
    ensures Body(After(h), f) == SinceFin(h, f.cid) + f.payload
    ensures f.cid !in After(h + [f])
    ensures forall c :: c != f.cid ==> Buffered(After(h + [f]), c) == Buffered(After(h), c)
  {
    BuffersAreSeparate(h, f.cid);
    assert (h + [f])[..|h|] == h;
    if |f.payload| > 0 {
      ConcatSnoc(Buffered(After(h), f.cid), f.payload);
    } else {
      assert Buffered(After(h), f.cid) + [] == Buffered(After(h), f.cid);
    }
  }
}
