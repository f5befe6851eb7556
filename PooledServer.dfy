/**
 * The thread-pool server's request handler. It recognises two request lines: the
 * root request, and a "sleep" request that is answered with the same page after a
 * five-second pause. The pause is kept only as the `slow` flag of the routing result.
 */
module PooledServer {
  import opened Bytes
  import opened Http
  import opened Wrappers
  import Server

  /** The request line that is answered slowly (21 bytes). It has a space, not a slash, between `HTTP` and `1.1`. */
  const SLEEP: seq<byte> := Ascii("GET /sleep HTTP 1.1\r\n")

  /** The sleep path written as a conventional request line; the handler does not recognise it. */
  const SLEEP_CONVENTIONAL: seq<byte> := Ascii("GET /sleep HTTP/1.1\r\n")

  /** The page chosen, and whether the handler sleeps before answering. */
  datatype Routed = Routed(page: Page, slow: bool)

  /** The three-way routing `if`/`else if`/`else` of `handle_client`. */
  function Route3(buf: seq<byte>): Routed {
    if StartsWith(buf, GET_ROOT) then Routed(INDEX_PAGE, false)
    else if StartsWith(buf, SLEEP) then Routed(INDEX_PAGE, true)
    else Routed(NOT_FOUND_PAGE, false)
  }

  /** The same routing with the two prefix tests in the opposite order. */
  function Route3SleepFirst(buf: seq<byte>): Routed {
    if StartsWith(buf, SLEEP) then Routed(INDEX_PAGE, true)
    else if StartsWith(buf, GET_ROOT) then Routed(INDEX_PAGE, false)
    else Routed(NOT_FOUND_PAGE, false)
  }

  /** What `handle_client` does for one request: the bytes it passes to `stream.write`, and whether it slept first. */
  datatype Exchange = Exchange(response: seq<byte>, slow: bool)

  /**
   * `handle_client` without the socket: the exchange, or `None` where
   * `fs::read_to_string(filename).unwrap()` panics because the file cannot be read.
   */
  function HandleClient(received: seq<byte>, files: map<string, seq<byte>>): Option<Exchange>
    requires |received| <= BUFFER_SIZE
  {
    var routed := Route3(FillBuffer(received));
    var page := routed.page;
    if page.filename in files then Some(Exchange(FormatResponse(page.status, files[page.filename]), routed.slow))
    else None
  }

  /** The sleep literals' lengths, the zero byte they avoid, and the indices where they differ from the other literals. */
  lemma SleepFacts()
    ensures |SLEEP| == 21 && |SLEEP_CONVENTIONAL| == 21 && Excludes(SLEEP, 0)
    ensures GET_ROOT[5] != SLEEP[5] && GET_ROOT[5] != SLEEP_CONVENTIONAL[5]
    ensures SLEEP[15] != SLEEP_CONVENTIONAL[15]
  {
  }

  /** No buffer begins with both recognised request lines: they differ at index 5 (a space against `s`). */
  lemma LiteralsExclusive(buf: seq<byte>)
    ensures StartsWith(buf, GET_ROOT) ==> !StartsWith(buf, SLEEP)
  {
    SleepFacts();
    LiteralFacts();
    StartsWithBothDiffer(buf, GET_ROOT, SLEEP, 5);
  }

  /** The order of the two prefix tests does not change the result. */
  lemma RouteOrderIrrelevant(buf: seq<byte>)
    ensures Route3(buf) == Route3SleepFirst(buf)
  {
    LiteralsExclusive(buf);
  }

  /** The three outcomes, each exactly for its kind of buffer. */
  lemma Route3Cases(buf: seq<byte>)
    ensures Route3(buf) == Routed(INDEX_PAGE, false) <==> StartsWith(buf, GET_ROOT)
    ensures Route3(buf) == Routed(INDEX_PAGE, true) <==> StartsWith(buf, SLEEP)
    ensures Route3(buf) == Routed(NOT_FOUND_PAGE, false) <==> !StartsWith(buf, GET_ROOT) && !StartsWith(buf, SLEEP)
  {
    LiteralFacts();
    LiteralsExclusive(buf);
  }

  /** Routing depends only on the first 21 bytes of the buffer. */
  lemma Route3FirstBytes(a: seq<byte>, b: seq<byte>)
    requires Take(a, |SLEEP|) == Take(b, |SLEEP|)
    ensures Route3(a) == Route3(b)
  {
    StartsWithAgree(a, b, GET_ROOT, |SLEEP|);
    StartsWithAgree(a, b, SLEEP, |SLEEP|);
  }

  /** The file name and the status line always belong together, and only the index page is ever slow. */
  lemma StatusMatchesFile(buf: seq<byte>)
    ensures Route3(buf).page.filename == "index.html" <==> Route3(buf).page.status == STATUS_OK
    ensures Route3(buf).page.filename == "404.html" <==> Route3(buf).page.status == STATUS_NOT_FOUND
    ensures Route3(buf).slow ==> Route3(buf).page == INDEX_PAGE
  {
  }

  /** The conventional spelling of the sleep request matches neither literal and is answered with 404. */
  lemma ConventionalSleepNotFound(buf: seq<byte>)
    requires StartsWith(buf, SLEEP_CONVENTIONAL)
    ensures Route3(buf) == Routed(NOT_FOUND_PAGE, false)
  {
    SleepFacts();
    StartsWithBothDiffer(buf, SLEEP_CONVENTIONAL, GET_ROOT, 5);
    StartsWithBothDiffer(buf, SLEEP_CONVENTIONAL, SLEEP, 15);
  }

  /**
   * The two servers route alike except on the sleep request: there the pooled server
   * serves the index page slowly while the single-threaded one answers 404.
   */
  lemma AgreesWithRoute2(buf: seq<byte>)
    ensures !StartsWith(buf, SLEEP) ==> Route3(buf) == Routed(Server.Route2(buf), false)
    ensures StartsWith(buf, SLEEP) ==>
      Route3(buf) == Routed(INDEX_PAGE, true) && Server.Route2(buf) == NOT_FOUND_PAGE
  {
    LiteralsExclusive(buf);
  }

  /**
   * End to end: the received bytes decide the page and the pause (the buffer's zero
   * padding never completes a request line), the handler answers exactly when that
   * page's file is readable, and the reply reads back as that status line with the
   * file's contents and their exact length.
   */
  lemma HandleClientResponds(received: seq<byte>, files: map<string, seq<byte>>)
    requires |received| <= BUFFER_SIZE
    ensures var routed := Route3(received);
      var page := routed.page;
      && (HandleClient(received, files).Some? <==> page.filename in files)
      && (page.filename in files ==>
            HandleClient(received, files).value.slow == routed.slow
            && ParseResponse(HandleClient(received, files).value.response)
                 == Some(Response(page.status, |files[page.filename]|, files[page.filename])))
  {
    LiteralFacts();
    SleepFacts();
    FillBufferStartsWith(received, GET_ROOT);
    FillBufferStartsWith(received, SLEEP);
    var page := Route3(received).page;
    if page.filename in files {
      ParseFormatResponse(page.status, files[page.filename]);
    }
  }
}
