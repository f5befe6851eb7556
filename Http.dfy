/**
 * The pieces shared by both request handlers: the request buffer, the request line
 * that selects the index page, the two pages a handler can answer with, and the
 * response layout written by `format!("{}\r\nContent-Length: {} \r\n\r\n{}", ...)`.
 */
module Http {
  import opened Bytes
  import opened Decimal
  import opened Wrappers

  /** Carriage return and line feed. */
  const CR: byte := 13
  const LF: byte := 10

  /** Both handlers read the request into a zero-initialised buffer of this many bytes. */
  const BUFFER_SIZE: nat := 1028

  /** The request line that selects the index page (16 bytes). */
  const GET_ROOT: seq<byte> := Ascii("GET / HTTP/1.1\r\n")

  const STATUS_OK: seq<byte> := Ascii("HTTP/1.1 200 OK")
  const STATUS_NOT_FOUND: seq<byte> := Ascii("HTTP/1.1 404 NOT FOUND")

  /** What a handler answers with: a status line and the file whose contents form the body. */
  datatype Page = Page(status: seq<byte>, filename: string)

  const INDEX_PAGE: Page := Page(STATUS_OK, "index.html")
  const NOT_FOUND_PAGE: Page := Page(STATUS_NOT_FOUND, "404.html")

  /** The text between the status line and the decimal length (18 bytes). */
  const LENGTH_FIELD: seq<byte> := Ascii("\r\nContent-Length: ")

  /** The text between the decimal length and the body (5 bytes; note the leading space). */
  const HEADER_END: seq<byte> := Ascii(" \r\n\r\n")

  /**
   * The buffer after `stream.read(&mut buffer)` on `[0; 1028]`: the bytes one read
   * delivered, followed by the zeros it did not overwrite.
   */
  function FillBuffer(received: seq<byte>): (buf: seq<byte>)
    requires |received| <= BUFFER_SIZE
    ensures |buf| == BUFFER_SIZE
    ensures StartsWith(buf, received)
    ensures forall i :: |received| <= i < BUFFER_SIZE ==> buf[i] == 0
  {
    received + seq(BUFFER_SIZE - |received|, _ => 0 as byte)
  }

  /**
   * For a literal with no zero byte, the filled buffer starts with it exactly when the
   * received bytes do: the zero padding can never complete a partial request line.
   */
  lemma FillBufferStartsWith(received: seq<byte>, literal: seq<byte>)
    requires |received| <= BUFFER_SIZE && |literal| <= BUFFER_SIZE
    requires Excludes(literal, 0)
    ensures StartsWith(FillBuffer(received), literal) <==> StartsWith(received, literal)
  {
    var buf := FillBuffer(received);
    if |received| < |literal| {
      assert buf[..|literal|][|received|] == 0 != literal[|received|];
    } else {
      assert buf[..|literal|] == received[..|literal|] by {
        assert buf[..|received|] == received;
      }
    }
  }

  /** The serialised reply: status line, Content-Length field, blank line, body. */
  function FormatResponse(status: seq<byte>, contents: seq<byte>): (r: seq<byte>)
    ensures StartsWith(r, status)
    ensures |r| == |status| + 18 + |NatToDecimal(|contents|)| + 5 + |contents|
    ensures r[|r| - |contents|..] == contents
  {
    status + LENGTH_FIELD + NatToDecimal(|contents|) + HEADER_END + contents
  }

  /** A response as read back from the wire. */
  datatype Response = Response(status: seq<byte>, contentLength: nat, body: seq<byte>)

  /** The number of leading decimal digits of `s`. */
  function DigitRun(s: seq<byte>): (k: nat)
    ensures k <= |s|
    ensures AllDigits(s[..k])
    ensures k < |s| ==> !IsDigit(s[k])
  {
    if |s| == 0 || !IsDigit(s[0]) then 0
    else
      var k := 1 + DigitRun(s[1..]);
      assert s[..k] == [s[0]] + s[1..][..k - 1];
      k
  }

  /** The digit run of a digit string followed by a non-digit ends where the digits do. */
  lemma {:induction false} DigitRunAfter(digits: seq<byte>, t: seq<byte>)
    requires AllDigits(digits) && |t| > 0 && !IsDigit(t[0])
    ensures DigitRun(digits + t) == |digits|
  {
    if |digits| > 0 {
      assert (digits + t)[1..] == digits[1..] + t;
      DigitRunAfter(digits[1..], t);
    }
  }

  /**
   * Reads a response in the layout above: the status line runs to the first CR, then
   * the Content-Length field, a non-empty run of digits, the header end and the body.
   */
  function ParseResponse(r: seq<byte>): Option<Response> {
    var i := IndexOf(r, CR);
    var rest := r[i..];
    if !StartsWith(rest, LENGTH_FIELD) then None
    else
      var value := rest[|LENGTH_FIELD|..];
      var n := DigitRun(value);
      var tail := value[n..];
      if n == 0 || !StartsWith(tail, HEADER_END) then None
      else Some(Response(r[..i], ParseDecimal(value[..n]), tail[|HEADER_END|..]))
  }

  /**
   * Reading back a formatted response recovers the status line and the body, and
   * its Content-Length value is the byte length of the body.
   */
  lemma ParseFormatResponse(status: seq<byte>, contents: seq<byte>)
    requires Excludes(status, CR)
    ensures ParseResponse(FormatResponse(status, contents)) == Some(Response(status, |contents|, contents))
  {
    var digits := NatToDecimal(|contents|);
    var r := FormatResponse(status, contents);
    assert r == status + (LENGTH_FIELD + (digits + (HEADER_END + contents)));
    IndexOfAfter(status, LENGTH_FIELD + (digits + (HEADER_END + contents)), CR);
    var i := IndexOf(r, CR);
    assert i == |status|;
    var rest := r[i..];
    assert rest == LENGTH_FIELD + (digits + (HEADER_END + contents));
    assert StartsWith(rest, LENGTH_FIELD);
    var value := rest[|LENGTH_FIELD|..];
    assert value == digits + (HEADER_END + contents);
    DigitRunAfter(digits, HEADER_END + contents);
    var n := DigitRun(value);
    assert value[..n] == digits;
    var tail := value[n..];
    assert tail == HEADER_END + contents;
    assert StartsWith(tail, HEADER_END);
    assert tail[|HEADER_END|..] == contents;
  }

  /** Different status lines or bodies never produce the same bytes on the wire. */
  lemma FormatResponseInjective(s1: seq<byte>, c1: seq<byte>, s2: seq<byte>, c2: seq<byte>)
    requires Excludes(s1, CR) && Excludes(s2, CR)
    requires FormatResponse(s1, c1) == FormatResponse(s2, c2)
    ensures s1 == s2 && c1 == c2
  {
    ParseFormatResponse(s1, c1);
    ParseFormatResponse(s2, c2);
  }

  /** Facts about the literals: lengths, the bytes they avoid, and that the two pages differ. */
  lemma LiteralFacts()
    ensures |GET_ROOT| == 16 && |LENGTH_FIELD| == 18 && |HEADER_END| == 5
    ensures Excludes(GET_ROOT, 0)
    ensures Excludes(STATUS_OK, CR) && Excludes(STATUS_NOT_FOUND, CR)
    ensures STATUS_OK != STATUS_NOT_FOUND && INDEX_PAGE.filename != NOT_FOUND_PAGE.filename
  {
  }
}
