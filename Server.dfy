/**
 * The single-threaded server's request handler: one prefix test on the request
 * buffer picks the page, and the page's file is sent back as the response body.
 * The socket and the file system are parameters: `received` is what one read of the
 * stream delivered, and `files` maps each readable file name to its contents.
 */
module Server {
  import opened Bytes
  import opened Http
  import opened Wrappers

  /** The two-way routing `if`/`else` of `handle_client`. */
  function Route2(buf: seq<byte>): Page {
    if StartsWith(buf, GET_ROOT) then INDEX_PAGE else NOT_FOUND_PAGE
  }

  /**
   * `handle_client` without the socket: the bytes it passes to `stream.write`, or `None` where
   * `fs::read_to_string(filename).unwrap()` panics because the file cannot be read.
   */
  function HandleClient(received: seq<byte>, files: map<string, seq<byte>>): Option<seq<byte>>
    requires |received| <= BUFFER_SIZE
  {
    var page := Route2(FillBuffer(received));
    if page.filename in files then Some(FormatResponse(page.status, files[page.filename]))
    else None
  }

  /** The index page is served exactly for buffers that begin with the root request line; every other buffer gets the 404 page. */
  lemma Route2Cases(buf: seq<byte>)
    ensures Route2(buf) == INDEX_PAGE <==> StartsWith(buf, GET_ROOT)
    ensures Route2(buf) == NOT_FOUND_PAGE <==> !StartsWith(buf, GET_ROOT)
  {
  }

  /** Routing depends only on the first 16 bytes of the buffer. */
  lemma Route2FirstBytes(a: seq<byte>, b: seq<byte>)
    requires Take(a, |GET_ROOT|) == Take(b, |GET_ROOT|)
    ensures Route2(a) == Route2(b)
  {
    StartsWithAgree(a, b, GET_ROOT, |GET_ROOT|);
  }

  /**
   * End to end: whether the reply is the index page or the 404 page is decided by the
   * bytes received (the buffer's zero padding never completes a request line), the
   * handler answers exactly when that page's file is readable, and the reply reads
   * back as that status line with the file's contents and their exact length.
   */
  lemma HandleClientResponds(received: seq<byte>, files: map<string, seq<byte>>)
    requires |received| <= BUFFER_SIZE
    ensures var page := Route2(received);
      && (HandleClient(received, files).Some? <==> page.filename in files)
      && (page.filename in files ==>
            ParseResponse(HandleClient(received, files).value)
              == Some(Response(page.status, |files[page.filename]|, files[page.filename])))
  {
    LiteralFacts();
    FillBufferStartsWith(received, GET_ROOT);
    var page := Route2(FillBuffer(received));
    if page.filename in files {
      ParseFormatResponse(page.status, files[page.filename]);
    }
  }
}
