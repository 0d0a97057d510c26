/** The body writer of lib/dispatcher/client-h1.js, against a reader of the chunked coding of section 7.1
of RFC 9112. What is written is one character per byte. */
module AsyncWriter {
  import opened Numerals
  import opened Wrappers

  const CRLF := "\r\n"

  /** A line holding a hexadecimal number: the number, and what follows the line. */
  function ReadSize(w: string): Option<(nat, string)> {
    var k := HexRun(w);
    if k == 0 || |w| < k + 2 || w[k..k + 2] != CRLF then None
    else Some((Value(w[..k], 16), w[k + 2..]))
  }

  /** chunked-body without extensions or trailers: the content, and what follows the body. */
  function ReadChunks(w: string): Option<(string, string)>
    decreases |w|
  {
    match ReadSize(w)
    case None => None
    case Some((n, rest)) =>
      if n == 0 then
        if |rest| >= 2 && rest[..2] == CRLF then Some(("", rest[2..])) else None
      else if |rest| < n + 2 || rest[n..n + 2] != CRLF then None
      else
        match ReadChunks(rest[n + 2..])
        case None => None
        case Some((body, after)) => Some((rest[..n] + body, after))
  }

  /** The pieces as `write` prints them: the line break before each one ends what came before. */
  function Chunked(pieces: seq<string>): string {
    if pieces == [] then ""
    else Chunked(pieces[..|pieces| - 1]) + CRLF + Digits(|pieces[|pieces| - 1]|, 16) + CRLF + pieces[|pieces| - 1]
  }

  function Concat(pieces: seq<string>): string {
    if pieces == [] then "" else Concat(pieces[..|pieces| - 1]) + pieces[|pieces| - 1]
  }

  lemma SizeLine(n: nat, rest: string)
    ensures ReadSize(Digits(n, 16) + CRLF + rest) == Some((n, rest))
  {
    var s := Digits(n, 16);
    var w := s + CRLF + rest;
    assert w == s + (CRLF + rest);
    HexRunIs(s, CRLF + rest);
    DigitsRead(n, 16);
    assert w[..|s|] == s && w[|s|..|s| + 2] == CRLF && w[|s| + 2..] == rest;
  }

  lemma Parts<T>(a: seq<T>, b: seq<T>, c: seq<T>)
    ensures (a + b + c)[..|a|] == a && (a + b + c)[|a|..|a| + |b|] == b && (a + b + c)[|a| + |b|..] == c
  {
  }

  /** One more piece in front of a readable body. */
  lemma ReadPiece(piece: string, w: string)
    requires piece != "" && ReadChunks(w).Some?
    ensures ReadChunks(Digits(|piece|, 16) + CRLF + (piece + CRLF + w))
            == Some((piece + ReadChunks(w).value.0, ReadChunks(w).value.1))
  {
    var rest := piece + CRLF + w;
    SizeLine(|piece|, rest);
    Parts(piece, CRLF, w);
    assert |CRLF| == 2 && |rest| >= |piece| + 2;
  }

  /** The same pieces, each with the line break that ends it. */
  function Printed(pieces: seq<string>): string {
    if pieces == [] then ""
    else Printed(pieces[..|pieces| - 1]) + Digits(|pieces[|pieces| - 1]|, 16) + CRLF + pieces[|pieces| - 1] + CRLF
  }

  lemma {:induction false} ChunkedIsPrinted(pieces: seq<string>)
    ensures Chunked(pieces) + CRLF == CRLF + Printed(pieces)
  {
    if pieces == [] {
      assert "" + CRLF == CRLF + "";
    } else {
      var init, last := pieces[..|pieces| - 1], pieces[|pieces| - 1];
      ChunkedIsPrinted(init);
      Shift(Chunked(init), CRLF, Printed(init), Digits(|last|, 16), last);
    }
  }

  lemma Shift(a: string, nl: string, b: string, size: string, last: string)
    requires a + nl == nl + b
    ensures a + nl + size + nl + last + nl == nl + (b + size + nl + last + nl)
  {
  }

  /** Whatever follows, the printed pieces read back as their concatenation, in front of what `w` is. */
  lemma {:induction false} PrintedReads(pieces: seq<string>, w: string)
    requires forall p :: p in pieces ==> p != ""
    requires ReadChunks(w).Some?
    ensures ReadChunks(Printed(pieces) + w) == Some((Concat(pieces) + ReadChunks(w).value.0, ReadChunks(w).value.1))
  {
    hide ReadChunks;
    if pieces == [] {
      assert Printed(pieces) + w == w;
      assert Concat(pieces) + ReadChunks(w).value.0 == ReadChunks(w).value.0;
    } else {
      var init, last := pieces[..|pieces| - 1], pieces[|pieces| - 1];
      assert last in pieces && forall p :: p in init ==> p in pieces;
      var size := Digits(|last|, 16);
      var w' := size + CRLF + (last + CRLF + w);
      ReadPiece(last, w);
      PrintedReads(init, w');
      Regroup(Printed(init), size, CRLF, last, w);
      assert Concat(init) + (last + ReadChunks(w).value.0) == Concat(init) + last + ReadChunks(w).value.0;
    }
  }

  lemma Regroup(a: string, size: string, nl: string, last: string, w: string)
    ensures a + size + nl + last + nl + w == a + (size + nl + (last + nl + w))
  {
  }

  lemma LastChunk(rest: string)
    ensures ReadChunks("0" + CRLF + CRLF + rest) == Some(("", rest))
  {
    assert Digits(0, 16) == "0";
    SizeLine(0, CRLF + rest);
    assert "0" + CRLF + CRLF + rest == "0" + CRLF + (CRLF + rest);
    assert (CRLF + rest)[..2] == CRLF && (CRLF + rest)[2..] == rest;
  }

  /** What is on the wire once pieces have been written and the body has not ended. */
  function Started(header: string, contentLength: Option<nat>, pieces: seq<string>): string {
    if pieces == [] then ""
    else Head(header, contentLength) + if contentLength.None? then Chunked(pieces) else Concat(pieces)
  }

  function Head(header: string, contentLength: Option<nat>): string {
    if contentLength.None? then header + "transfer-encoding: chunked" + CRLF
    else header + "content-length: " + Digits(contentLength.value, 10) + CRLF + CRLF
  }

  /** What one more piece adds to the wire. */
  lemma StartedBy(header: string, contentLength: Option<nat>, pieces: seq<string>, chunk: string)
    requires chunk != "" && forall p :: p in pieces ==> p != ""
    ensures Concat(pieces + [chunk]) == Concat(pieces) + chunk
    ensures Concat(pieces) == "" <==> pieces == []
    ensures Started(header, contentLength, pieces + [chunk])
            == Started(header, contentLength, pieces)
               + (if pieces == [] then Head(header, contentLength) else "")
               + (if contentLength.None? then CRLF + Digits(|chunk|, 16) + CRLF else "")
               + chunk
  {
    hide Head, Digits;
    assert (pieces + [chunk])[..|pieces|] == pieces;
    if pieces != [] {
      assert pieces[|pieces| - 1] in pieces;
    }
    var head, size := Head(header, contentLength), Digits(|chunk|, 16);
    if contentLength.None? {
      Glue(head, Chunked(pieces), CRLF, size, chunk);
    } else {
      Glue(head, Concat(pieces), "", "", chunk);
    }
  }

  lemma EmptyIffNone(pieces: seq<string>)
    requires forall p :: p in pieces ==> p != ""
    ensures Concat(pieces) == "" <==> pieces == []
  {
    if pieces != [] {
      assert pieces[|pieces| - 1] in pieces;
    }
  }

  lemma Reassociate(before: string, started: string, head: string, size: string, chunk: string)
    ensures before + started + head + size + chunk == before + (started + head + size + chunk)
  {
  }

  lemma Glue(head: string, before: string, nl: string, size: string, chunk: string)
    ensures head + (before + nl + size + nl + chunk) == head + before + (nl + size + nl) + chunk
    ensures head + before + chunk == head + (before + chunk) && head + before + "" + chunk == head + (before + chunk)
    ensures "" + head + (nl + size + nl) + chunk == head + ("" + nl + size + nl + chunk)
    ensures "" + head + "" + chunk == head + ("" + chunk)
  {
  }

  /** What the end of the body adds. */
  function Ending(header: string, contentLength: Option<nat>, expectsPayload: bool, pieces: seq<string>): string {
    if pieces == [] then header + if expectsPayload then "content-length: 0" + CRLF + CRLF else CRLF
    else if contentLength.None? then CRLF + "0" + CRLF + CRLF
    else ""
  }

  /** A whole chunked message, and anything behind it on the connection, is the head of the message and a
      body that a reader takes for the concatenation of the pieces, leaving exactly what is behind. */
  lemma MessageReads(header: string, expectsPayload: bool, pieces: seq<string>, behind: string) returns (body: string)
    requires pieces != [] && forall p :: p in pieces ==> p != ""
    ensures Started(header, None, pieces) + Ending(header, None, expectsPayload, pieces) + behind
            == header + "transfer-encoding: chunked" + CRLF + CRLF + body
    ensures ReadChunks(body) == Some((Concat(pieces), behind))
  {
    hide ReadChunks;
    var head, end := header + "transfer-encoding: chunked" + CRLF, "0" + CRLF + CRLF;
    body := Printed(pieces) + (end + behind);
    LastChunk(behind);
    PrintedReads(pieces, end + behind);
    assert Concat(pieces) + "" == Concat(pieces);
    ChunkedIsPrinted(pieces);
    Join(head, Chunked(pieces), CRLF, Printed(pieces), end, behind);
    assert CRLF + "0" + CRLF + CRLF == CRLF + end;
  }

  lemma Join(head: string, chunked: string, nl: string, printed: string, last: string, behind: string)
    requires chunked + nl == nl + printed
    ensures head + chunked + (nl + last) + behind == head + nl + (printed + (last + behind))
  {
    assert head + chunked + (nl + last) + behind == head + (chunked + nl) + (last + behind);
    assert head + (nl + printed) + (last + behind) == head + nl + (printed + (last + behind));
  }

  predicate StartsWith(w: string, prefix: string) {
    |w| >= |prefix| && w[..|prefix|] == prefix
  }

  lemma PrefixOff(prefix: string, rest: string)
    ensures StartsWith(prefix + rest, prefix) && (prefix + rest)[|prefix|..] == rest
  {
  }

  const CHUNKED := "transfer-encoding: chunked\r\n\r\n"
  const LENGTH := "content-length: "

  /** Section 6.3 of RFC 9112, for what follows the other fields of a request: the field that frames the body, the empty
      line and the body; and what is behind the message. Without such a field there is no body. */
  function ReadMessage(w: string): Option<(string, string)> {
    if StartsWith(w, CRLF) then Some(("", w[|CRLF|..]))
    else if StartsWith(w, CHUNKED) then ReadChunks(w[|CHUNKED|..])
    else if StartsWith(w, LENGTH) then ReadLength(w[|LENGTH|..])
    else None
  }

  function ReadLength(w: string): Option<(string, string)> {
    var k := DecimalRun(w);
    if k == 0 || !StartsWith(w[k..], CRLF + CRLF) then None
    else
      var n, body := Value(w[..k], 10), w[k + 4..];
      if |body| < n then None else Some((body[..n], body[n..]))
  }

  lemma LengthReads(n: nat, w: string)
    ensures ReadMessage(LENGTH + (Digits(n, 10) + (CRLF + CRLF + w))) == if |w| < n then None else Some((w[..n], w[n..]))
  {
    var digits, rest := Digits(n, 10), CRLF + CRLF + w;
    DigitsDecimal(n);
    DigitsRead(n, 10);
    hide Digits, Value;
    DecimalRunIs(digits, rest);
    PrefixOff(digits, rest);
    PrefixOff(CRLF + CRLF, w);
    assert (digits + rest)[|digits| + 4..] == w;
    PrefixOff(LENGTH, digits + rest);
    assert LENGTH[0] == 'c' && CRLF[0] == '\r' && CHUNKED[0] == 't';
  }

  lemma ChunksRead(w: string)
    ensures ReadMessage(CHUNKED + w) == ReadChunks(w)
  {
    PrefixOff(CHUNKED, w);
    assert CRLF[0] == '\r' && CHUNKED[0] == 't';
    hide ReadChunks;
  }

  /** A message without a single piece. */
  lemma EmptyReads(expectsPayload: bool, behind: string)
    ensures ReadMessage((if expectsPayload then "content-length: 0" + CRLF + CRLF else CRLF) + behind) == Some(("", behind))
  {
    hide ReadMessage;
    if expectsPayload {
      ZeroLength();
      LengthReads(0, behind);
      Nest(LENGTH, "0", CRLF, behind);
    } else {
      BareReads(behind);
    }
  }

  lemma BareReads(behind: string)
    ensures ReadMessage(CRLF + behind) == Some(("", behind))
  {
    hide ReadLength, ReadChunks;
    PrefixOff(CRLF, behind);
  }

  lemma ZeroLength()
    ensures "content-length: 0" == LENGTH + "0" && Digits(0, 10) == "0"
  {
  }

  lemma Nest(field: string, value: string, nl: string, rest: string)
    ensures field + value + nl + nl + rest == field + (value + (nl + nl + rest))
    ensures rest[..0] == "" && rest[0..] == rest
  {
  }

  /** What the pieces and their end put on the wire behind the header is read back as their concatenation, and what is
      behind it is left, exactly if no length was declared, or that of the pieces, or there are none. */
  lemma WholeMessageReads(header: string, contentLength: Option<nat>, expectsPayload: bool, pieces: seq<string>, behind: string)
      returns (message: string)
    requires forall p :: p in pieces ==> p != ""
    ensures Started(header, contentLength, pieces) + Ending(header, contentLength, expectsPayload, pieces) == header + message
    ensures ReadMessage(message + behind) == Some((Concat(pieces), behind)) <==>
            contentLength.None? || pieces == [] || |Concat(pieces)| == contentLength.value
  {
    hide ReadMessage, ReadChunks;
    if pieces == [] {
      message := if expectsPayload then "content-length: 0" + CRLF + CRLF else CRLF;
      EmptyReads(expectsPayload, behind);
      assert "" + (header + message) == header + message;
    } else if contentLength.None? {
      message := ChunkedMessageReads(header, expectsPayload, pieces, behind);
    } else {
      message := LengthMessageReads(header, contentLength.value, expectsPayload, pieces, behind);
    }
  }

  lemma ChunkedMessageReads(header: string, expectsPayload: bool, pieces: seq<string>, behind: string) returns (message: string)
    requires pieces != [] && forall p :: p in pieces ==> p != ""
    ensures Started(header, None, pieces) + Ending(header, None, expectsPayload, pieces) == header + message
    ensures ReadMessage(message + behind) == Some((Concat(pieces), behind))
  {
    hide ReadMessage, ReadChunks, Concat, Chunked;
    var field, end := "transfer-encoding: chunked" + CRLF, CRLF + "0" + CRLF + CRLF;
    message := field + Chunked(pieces) + end;
    var body := MessageReads(header, expectsPayload, pieces, behind);
    ChunksRead(body);
    assert Head(header, None) == header + field;
    Unframe(Head(header, None), header, field, Chunked(pieces), end, behind, CRLF, body);
    assert CHUNKED == field + CRLF;
  }

  lemma Unframe(head: string, header: string, field: string, chunked: string, end: string, behind: string, nl: string, body: string)
    requires head == header + field && head + chunked + end + behind == head + nl + body
    ensures head + chunked + end == header + (field + chunked + end)
    ensures field + chunked + end + behind == field + nl + body
  {
    assert head + chunked + end + behind == head + (chunked + end + behind);
    assert head + nl + body == head + (nl + body);
    Cancel(head, chunked + end + behind, nl + body);
    assert field + chunked + end + behind == field + (chunked + end + behind);
  }

  lemma Cancel(a: string, b: string, c: string)
    requires a + b == a + c
    ensures b == c
  {
    PrefixOff(a, b);
    PrefixOff(a, c);
  }

  lemma LengthMessageReads(header: string, n: nat, expectsPayload: bool, pieces: seq<string>, behind: string) returns (message: string)
    requires pieces != []
    ensures Started(header, Some(n), pieces) + Ending(header, Some(n), expectsPayload, pieces) == header + message
    ensures ReadMessage(message + behind) == Some((Concat(pieces), behind)) <==> |Concat(pieces)| == n
  {
    hide ReadMessage, Concat, Digits;
    var body := Concat(pieces);
    message := LENGTH + (Digits(n, 10) + (CRLF + CRLF + body));
    LengthReads(n, body + behind);
    assert message + behind == LENGTH + (Digits(n, 10) + (CRLF + CRLF + (body + behind)));
    assert header + LENGTH + Digits(n, 10) + CRLF + CRLF + body + "" == header + message;
    PrefixOff(body, behind);
  }

  class Socket {
    var wire: string
    var errored: bool    // kError is set
    var destroyed: bool
    var reset: bool      // kReset: not to be used for another request
    var writing: bool    // kWriting

    constructor ()
      ensures wire == "" && !errored && !destroyed && !reset && !writing
    {
      wire, errored, destroyed, reset, writing := "", false, false, false, false;
    }
  }

  datatype Thrown = SocketError | LengthMismatch

  class Writer {
    const socket: Socket
    const header: string
    const contentLength: Option<nat>
    const expectsPayload: bool
    /** strictContentLength */
    const strict: bool
    /** request.reset === false */
    const keepsSocket: bool
    var bytesWritten: nat
    var lengthMismatch: bool

    /** What was on the wire before, the pieces put there, and everything `write` was given. */
    ghost const before: string
    ghost var pieces: seq<string>
    ghost var given: string

    constructor (socket: Socket, header: string, contentLength: Option<nat>, expectsPayload: bool, strict: bool, keepsSocket: bool)
      modifies socket`writing
      ensures Valid() && socket.writing && this.socket == socket
      ensures this.header == header && this.contentLength == contentLength && this.expectsPayload == expectsPayload
      ensures this.strict == strict && this.keepsSocket == keepsSocket
      ensures before == socket.wire && pieces == [] && given == ""
    {
      this.socket, this.header, this.contentLength, this.expectsPayload := socket, header, contentLength, expectsPayload;
      this.strict, this.keepsSocket := strict, keepsSocket;
      bytesWritten, lengthMismatch := 0, false;
      before, pieces, given := socket.wire, [], "";
      new;
      socket.writing := true;
      assert before + "" == before;
    }

    /** The wire is the head of the message and the pieces; together they are what was given, or its
        beginning up to the declared length, and then the socket is marked. */
    ghost predicate Valid()
      reads this, socket
    {
      && socket.wire == before + Started(header, contentLength, pieces)
      && (forall p :: p in pieces ==> p != "")
      && bytesWritten == |Concat(pieces)|
      && (if lengthMismatch
          then contentLength.Some? && !strict && socket.reset && bytesWritten == contentLength.value < |given|
               && Concat(pieces) == given[..bytesWritten]
          else Concat(pieces) == given && (contentLength.Some? ==> bytesWritten <= contentLength.value))
    }

    method OnLengthMismatch()
      modifies socket`reset, this`lengthMismatch
      ensures socket.reset && lengthMismatch
    {
      socket.reset := true;
      if !lengthMismatch {
        lengthMismatch := true;
      }
    }

    /** The first piece brings the head of the message with it. */
    method Put(chunk: string)
      requires Valid() && chunk != "" && !lengthMismatch
      requires contentLength.Some? ==> bytesWritten + |chunk| <= contentLength.value
      modifies socket`wire, socket`reset, this`bytesWritten, this`pieces, this`given
      ensures Valid() && pieces == old(pieces) + [chunk] && given == old(given) + chunk
      ensures socket.reset <==> old(socket.reset) || (old(bytesWritten) == 0 && !expectsPayload && !keepsSocket)
    {
      hide Chunked, Concat;
      StartedBy(header, contentLength, pieces, chunk);
      hide Started, Head, Digits;
      ghost var started := Started(header, contentLength, pieces);
      var first := bytesWritten == 0;
      socket.reset := socket.reset || (first && !expectsPayload && !keepsSocket);
      var head := if first then Head(header, contentLength) else "";
      var size := if contentLength.None? then CRLF + Digits(|chunk|, 16) + CRLF else "";
      Reassociate(before, started, head, size, chunk);
      socket.wire := socket.wire + head;
      socket.wire := socket.wire + size;
      bytesWritten := bytesWritten + |chunk|;
      socket.wire := socket.wire + chunk;
      given := given + chunk;
      pieces := pieces + [chunk];
    }

    /** write: what the socket accepts of a chunk. Nothing is written past the declared length. */
    method Write(chunk: string) returns (thrown: Option<Thrown>, flowing: bool)
      requires Valid()
      modifies socket`wire, socket`reset, this`bytesWritten, this`lengthMismatch, this`pieces, this`given
      ensures Valid()
      ensures socket.errored ==> thrown == Some(SocketError)
      ensures !socket.errored ==> thrown == (if !socket.destroyed && chunk != "" && strict
                                                && contentLength.Some? && old(bytesWritten) + |chunk| > contentLength.value
                                             then Some(LengthMismatch) else None)
      ensures thrown.Some? || socket.destroyed ==>
                socket.wire == old(socket.wire) && given == old(given) && pieces == old(pieces) && (socket.destroyed && thrown.None? ==> !flowing)
      ensures thrown.None? && !socket.destroyed ==> given == old(given) + chunk
      ensures lengthMismatch == (old(lengthMismatch)
                || (thrown.None? && !socket.destroyed && chunk != ""
                    && contentLength.Some? && old(bytesWritten) + |chunk| > contentLength.value))
      ensures thrown.None? && !socket.destroyed && chunk != "" ==>
                pieces == old(pieces) + (if !lengthMismatch then [chunk]
                                         else if old(bytesWritten) == contentLength.value then []
                                         else [chunk[..contentLength.value - old(bytesWritten)]])
      ensures socket.reset <==> old(socket.reset) || (lengthMismatch && given != old(given))
                                || (old(pieces) == [] && pieces != [] && !expectsPayload && !keepsSocket)
      ensures thrown.None? && !socket.destroyed && (chunk == "" || (lengthMismatch && old(bytesWritten) == contentLength.value)) ==> flowing
    {
      if socket.errored {
        return Some(SocketError), false;
      }
      if socket.destroyed {
        return None, false;
      }
      if chunk == "" {
        assert given + chunk == given;
        return None, true;
      }
      if Overflows(bytesWritten, chunk) {
        if strict {
          return Some(LengthMismatch), false;
        }
        flowing := WriteUpToLength(chunk);
        return None, flowing;
      }
      EmptyIffNone(pieces);
      Put(chunk);
      flowing := *;
      return None, flowing;
    }

    /** A chunk that runs past the declared length: its beginning, if there is still room for one. */
    method WriteUpToLength(chunk: string) returns (flowing: bool)
      requires Valid() && Overflows(bytesWritten, chunk) && !strict && chunk != ""
      modifies socket`wire, socket`reset, this`bytesWritten, this`lengthMismatch, this`pieces, this`given
      ensures Valid() && lengthMismatch && given == old(given) + chunk && socket.reset
      ensures old(bytesWritten) == contentLength.value ==> flowing
      ensures pieces == old(pieces) + if old(bytesWritten) == contentLength.value then []
                                      else [chunk[..contentLength.value - old(bytesWritten)]]
    {
      ghost var all := given + chunk;
      var remaining := contentLength.value - bytesWritten;
      if remaining == 0 {
        OnLengthMismatch();
        assert all[..bytesWritten] == given[..bytesWritten];
        given := all;
        return true;
      }
      Put(chunk[..remaining]);
      OnLengthMismatch();
      assert all[..|given|] == given;
      given := all;
      flowing := *;
    }

    predicate Overflows(bytesWritten: nat, chunk: string) {
      contentLength.Some? && bytesWritten + |chunk| > contentLength.value
    }

    /** end. On a live socket a message is completed; and if it returns normally, either exactly the
        declared length was written or the socket is not used again. */
    method End() returns (thrown: Option<Thrown>)
      requires Valid()
      modifies socket`wire, socket`reset, socket`writing, this`lengthMismatch
      ensures !socket.writing
      ensures socket.errored ==> thrown == Some(SocketError)
      ensures socket.errored || socket.destroyed ==> socket.wire == old(socket.wire) && (thrown.Some? ==> socket.errored)
      ensures !socket.errored && !socket.destroyed ==>
                && socket.wire == before + Started(header, contentLength, pieces) + Ending(header, contentLength, expectsPayload, pieces)
                && thrown == (if contentLength.Some? && |Concat(pieces)| != contentLength.value && strict then Some(LengthMismatch) else None)
                && (thrown.None? && contentLength.Some? ==> |Concat(pieces)| == contentLength.value || socket.reset)
                && (contentLength.Some? && |given| > contentLength.value ==> socket.reset)
    {
      socket.writing := false;
      if socket.errored {
        return Some(SocketError);
      }
      if socket.destroyed {
        return None;
      }
      EmptyIffNone(pieces);
      hide Started, Concat, Digits;
      if bytesWritten == 0 {
        if expectsPayload {
          socket.wire := socket.wire + (header + ("content-length: 0" + CRLF + CRLF));
        } else {
          socket.wire := socket.wire + (header + CRLF);
        }
      } else if contentLength.None? {
        socket.wire := socket.wire + (CRLF + "0" + CRLF + CRLF);
      } else {
        assert socket.wire + "" == socket.wire;
      }
      if contentLength.Some? && bytesWritten != contentLength.value {
        if strict {
          return Some(LengthMismatch);
        }
        OnLengthMismatch();
      }
      return None;
    }

  }

  lemma ConcatNone(chunks: seq<string>)
    requires chunks == []
    ensures Concat(chunks) == ""
  {
  }

  lemma ConcatTake(chunks: seq<string>, i: nat)
    requires i < |chunks|
    ensures Concat(chunks[..i + 1]) == Concat(chunks[..i]) + chunks[i]
  {
    assert chunks[..i + 1][..i] == chunks[..i];
  }

  /** writeIterable: every chunk of a body, then its end, while the socket may fail or go away at any
      moment. If all goes well on a socket that is still alive, the message on the wire carries the
      concatenation of the chunks, cut at a declared length; and a declared length that was not met
      exactly leaves the socket marked. */
  method WriteIterable(writer: Writer, chunks: seq<string>) returns (thrown: Option<Thrown>)
    requires writer.Valid() && writer.given == ""
    modifies writer, writer.socket
    ensures !writer.socket.writing
    ensures thrown.None? && !writer.socket.destroyed ==>
              var total := Concat(chunks);
              && writer.socket.wire == writer.before + Started(writer.header, writer.contentLength, writer.pieces)
                   + Ending(writer.header, writer.contentLength, writer.expectsPayload, writer.pieces)
              && (forall p :: p in writer.pieces ==> p != "")
              && (if writer.contentLength.None? then Concat(writer.pieces) == total
                  else var n := writer.contentLength.value;
                       Concat(writer.pieces) == (if |total| <= n then total else total[..n])
                       && (|total| == n || writer.socket.reset))
    ensures writer.strict && writer.contentLength.Some? && thrown.None? && !writer.socket.destroyed ==>
              |Concat(chunks)| == writer.contentLength.value
  {
    hide Concat, Started, Ending;
    var socket := writer.socket;
    ConcatNone(chunks[..0]);
    for i := 0 to |chunks|
      invariant writer.Valid()
      invariant !socket.destroyed ==> writer.given == Concat(chunks[..i])
    {
      var errored: bool, gone: bool := *, *;
      socket.errored, socket.destroyed := errored, socket.destroyed || gone;
      if socket.errored {
        socket.writing := false;
        return Some(SocketError);
      }
      var flowing;
      thrown, flowing := writer.Write(chunks[i]);
      ConcatTake(chunks, i);
      if thrown.Some? {
        socket.writing := false;
        return;
      }
    }
    assert chunks[..|chunks|] == chunks;
    thrown := writer.End();
  }

  /** A whole message, from the writer's construction to a reader at the other end: the reader gets the body and leaves
      what is behind the message, exactly if no length was declared, or the body's, or the body is empty. In every other
      case the socket is not used again. */
  method SendAndRead(socket: Socket, header: string, contentLength: Option<nat>, expectsPayload: bool, strict: bool,
                     keepsSocket: bool, chunks: seq<string>, ghost behind: string)
      returns (thrown: Option<Thrown>, ghost message: string)
    modifies socket
    ensures thrown.None? && !socket.destroyed ==>
              var body := Concat(chunks);
              && socket.wire == old(socket.wire) + (header + message)
              && (ReadMessage(message + behind) == Some((body, behind)) <==>
                    contentLength.None? || |body| == contentLength.value || body == "")
              && (contentLength.Some? && |body| != contentLength.value ==> socket.reset && !strict)
  {
    hide ReadMessage, Started, Ending, Concat;
    var writer := new Writer(socket, header, contentLength, expectsPayload, strict, keepsSocket);
    thrown := WriteIterable(writer, chunks);
    message := "";
    if thrown.None? && !socket.destroyed {
      ghost var pieces := writer.pieces;
      message := WholeMessageReads(header, contentLength, expectsPayload, pieces, behind);
      EmptyIffNone(pieces);
      assert socket.wire == old(socket.wire) + (header + message) by {
        assert Started(header, contentLength, pieces) + Ending(header, contentLength, expectsPayload, pieces) == header + message;
      }
    }
  }
}
