# TCP-Listener request handling, modelled in Dafny

The repository is a small HTTP server written in Rust, in two variants. `src/main.rs`
serves connections one at a time; `src/bin/main.rs` hands each connection to a thread
pool. In both, `handle_client` reads one request into a zero-filled 1028-byte buffer
and picks a page by testing whether the buffer starts with a literal request line.
It then reads the page's file and writes back
`status line ++ "\r\nContent-Length: " ++ decimal length ++ " \r\n\r\n" ++ contents`.

This project models that logic as pure functions over bytes:

- `Bytes`: the `u8` type, ASCII literals, `starts_with` and a first-index search.
- `Decimal`: the `{}` rendering of a length (`NatToDecimal`) and its parser.
  The two form a bijection between numbers and canonical digit strings.
- `Http`: the parts both handlers share. These are the buffer (`FillBuffer`), the root
  request line, the two pages, and the response layout (`FormatResponse`).
  `ParseResponse` is an independent reader of that layout, and
  `ParseFormatResponse` proves that it reads back the status line, the body and
  a Content-Length value equal to the body's byte length.
- `Server`: `src/main.rs`, two-way routing (`Route2`) and the whole handler.
- `PooledServer`: `src/bin/main.rs`, three-way routing (`Route3`) with the
  five-second sleep kept as a `slow` flag, and the whole handler. It also
  compares this routing with `Server.Route2`.

The socket and the file system are parameters. `received` is what the single
`stream.read` delivered, at most 1028 bytes. `files` maps each readable file name to
its contents. A file missing from `files` stands for the panic of
`fs::read_to_string(filename).unwrap()`: the handler then gives `None`.

## Model

| member | source | states |
|---|---|---|
| Bytes.Ascii | src/bin/main.rs:14-16 | the bytes of an ASCII literal, as a `b"..."` literal or `as_bytes` gives them: same length, each byte the character's code |
| Bytes.StartsWith | src/bin/main.rs:19-21 | `<[u8]>::starts_with`: the needle is no longer than the buffer and equals the buffer's first bytes |
| Http.FillBuffer | src/main.rs:6-9 | the buffer is always 1028 bytes: the received bytes, then zeros |
| Http.FillBufferStartsWith | src/bin/main.rs:9-21 | for a literal with no zero byte, the filled buffer starts with it exactly when the received bytes do, so a short read never matches |
| Http.FormatResponse | src/main.rs:21-26 | the response starts with the status line and ends with the contents; its length is status + 18 + digits + 5 + contents |
| Http.ParseFormatResponse | src/bin/main.rs:29-34 | for a status line without CR, reading a response back gives the status line, the body, and a Content-Length value equal to the body's byte length |
| Http.FormatResponseInjective | src/main.rs:21-26 | for status lines without CR (both status literals qualify, `LiteralFacts`), distinct (status, contents) pairs give distinct responses |
| Http.LiteralFacts | src/main.rs:11-17 | the root request line is 16 bytes with no zero byte; the status lines have no CR; the two pages differ in status and file name |
| Decimal.NatToDecimal | src/main.rs:24 | the length is written as a canonical digit string (no leading zero) that parses back to the length |
| Decimal.DecimalOfParse | src/bin/main.rs:32 | every canonical digit string is the rendering of its value, so the rendering is a bijection |
| Decimal.CanonicalUnique | src/bin/main.rs:32 | a value has only one canonical rendering |
| Server.Route2 | src/main.rs:13-18 | the two-way routing expression |
| Server.Route2Cases | src/main.rs:13-18 | the index page is chosen exactly when the buffer starts with `GET / HTTP/1.1\r\n`; every other buffer gets the 404 page |
| Server.Route2FirstBytes | src/main.rs:6-14 | two buffers that agree on their first 16 bytes route alike |
| Server.HandleClient | src/main.rs:3-29 | the handler without the socket |
| Server.HandleClientResponds | src/main.rs:9-28 | the received bytes decide the page; the handler answers exactly when the page's file is readable; the reply reads back as that status line, the file's contents and their length |
| PooledServer.SleepFacts | src/bin/main.rs:14-16 | the sleep literal is 21 bytes; it differs from the root literal at index 5 and from the slash spelling at index 15 |
| PooledServer.LiteralsExclusive | src/bin/main.rs:14-16 | no buffer starts with both the root and the sleep literal |
| PooledServer.Route3 | src/bin/main.rs:18-26 | the three-way routing expression, with the sleep as the `slow` flag |
| PooledServer.RouteOrderIrrelevant | src/bin/main.rs:18-26 | testing the sleep literal first gives the same result |
| PooledServer.Route3Cases | src/bin/main.rs:18-26 | root gives index and not slow; sleep gives index and slow; anything else gives 404 and not slow; each case holds exactly for its kind of buffer |
| PooledServer.Route3FirstBytes | src/bin/main.rs:9-21 | two buffers that agree on their first 21 bytes route alike |
| PooledServer.StatusMatchesFile | src/bin/main.rs:18-26 | `index.html` goes with exactly the 200 status and `404.html` with exactly the 404 status; only the index page is slow |
| PooledServer.ConventionalSleepNotFound | src/bin/main.rs:14-25 | a buffer starting with `GET /sleep HTTP/1.1\r\n` (with the slash) gets the 404 page |
| PooledServer.AgreesWithRoute2 | src/bin/main.rs:18-26 | unless the buffer starts with the sleep literal, the routing equals `Server.Route2`; on the sleep literal this server serves the index page slowly and the other one answers 404 |
| PooledServer.HandleClient | src/bin/main.rs:7-37 | the handler without the socket |
| PooledServer.HandleClientResponds | src/bin/main.rs:12-36 | the received bytes decide the page and the sleep; the handler answers exactly when the page's file is readable; the reply reads back as that status line, the file's contents and their length |

## Left out

- `src/lib.rs` (`ThreadPool`, `Worker`, `Job`): its whole content is threads, an `mpsc` channel and a `Mutex`. A sequential model would misrepresent it. That code also has no shutdown message and no `Drop`, so there is no disposal sequence to model.
- TCP: `TcpListener::bind`, `incoming()`, `stream.write` and `flush` are network I/O. `stream.read` is reduced to the bytes one read delivered, which is at most the buffer size. Partial reads are covered only in that a request split across reads is modelled as its first part.
- Short writes: the source calls `stream.write` once and ignores its byte count, so only a prefix of the response may be sent. The model gives the bytes passed to `stream.write`, not the bytes that reach the client.
- `fs::read_to_string`: a file is either readable with given contents or absent. Its UTF-8 validation is not modelled. The file contents are taken as the bytes of the `String`, whose `len()` is their byte length.
- `thread::sleep(Duration::from_secs(5))`: only the `slow` flag remains. When the file is unreadable the handler gives `None`, and the pause before the panic is not recorded.
- `println!` logging, and the `.unwrap()` panics on socket errors.
- `contents.len()` is a `usize`. The model uses an unbounded `nat`, because a `String` can never reach `usize::MAX` bytes.
