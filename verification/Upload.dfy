/** The session as the server changes it in place, chunk by chunk. */
module Upload {
  import opened Bytes
  import opened UploadModel

  const STREAM_END := 1001

  /** The buffer behind the received bytes is zero, so C strings end there. */
  lemma BufferIsString(buffer: Text, n: nat, cmd: Text)
    requires n < |buffer| && (forall k | n <= k < |buffer| :: buffer[k] == 0) && IsName(cmd)
    ensures HasPrefix(buffer, cmd) <==> HasPrefix(buffer[..n], cmd)
    ensures FindNewline(buffer, 0) == FindNewline(buffer[..n], 0)
  {
    if HasPrefix(buffer, cmd) {
      assert forall k | 0 <= k < |cmd| :: buffer[k] == buffer[..|cmd|][k] != 0;
      assert buffer[n] == 0;
      assert buffer[..|cmd|] == buffer[..n][..|cmd|];
    }
    if HasPrefix(buffer[..n], cmd) { assert buffer[..|cmd|] == buffer[..n][..|cmd|]; }
    NewlineInPart(buffer, n, 0);
  }

  lemma {:induction false} NewlineInPart(buffer: Text, n: nat, k: nat)
    requires k <= n < |buffer| && buffer[n] == 0
    ensures FindNewline(buffer, k) == FindNewline(buffer[..n], k)
    decreases n - k
  {
    if k < n && buffer[k] != 0 && buffer[k] != NEWLINE { NewlineInPart(buffer, n, k + 1); }
  }

  class Connection {
    const buffer: array<Byte>
    var position: nat
    var bytesInBuffer: nat
    const input: array<Byte>
    var inputPos: nat
    var state: Phase
    var filename: Text
    var headersize: nat
    var totalBytesForPut: nat
    var totalWritten: nat
    // What the connection does to the outside.
    var responses: seq<Response>
    var files: map<Text, Text>
    var directory: seq<Text>

    function State(): Session
      reads this, input
      requires inputPos <= input.Length
    {
      Session(state, input[..inputPos], filename, headersize, totalBytesForPut, totalWritten, responses, files,
              directory)
    }

    ghost predicate Valid()
      reads this, input, buffer
    {
      && buffer.Length == BUFSIZ && input.Length == 2 * BUFSIZ && buffer != input
      && position <= bytesInBuffer <= BUFSIZ && inputPos <= 2 * BUFSIZ
      && forall k | inputPos <= k < input.Length :: input[k] == 0
    }

    constructor (files: map<Text, Text>, directory: seq<Text>)
      ensures Valid() && State() == Create(files, directory) && position == bytesInBuffer
      ensures fresh(buffer) && fresh(input)
    {
      buffer := new Byte[BUFSIZ](_ => 0);
      input := new Byte[2 * BUFSIZ](_ => 0);
      position, bytesInBuffer, inputPos := 0, 0, 0;
      state, filename, headersize, totalBytesForPut, totalWritten := ReadingHeader, [], 0, 0, 0;
      responses := [];
      this.files, this.directory := files, directory;
    }

    /** The next byte of the chunk, or STREAM_END. */
    method GetNext() returns (c: int)
      requires Valid()
      modifies this`position
      ensures Valid()
      ensures if old(position) < bytesInBuffer then position == old(position) + 1 && c == buffer[old(position)] as int
              else position == old(position) && c == STREAM_END
    {
      if position < bytesInBuffer {
        position := position + 1;
        return buffer[position - 1] as int;
      }
      c := STREAM_END;
    }

    /** Moves what is left of the chunk to the input. */
    method ReadInput()
      requires Valid() && inputPos + (bytesInBuffer - position) <= 2 * BUFSIZ
      modifies this`position, this`inputPos, input
      ensures Valid() && position == bytesInBuffer && inputPos == old(inputPos) + (bytesInBuffer - old(position))
      ensures State() == old(State()).(input := old(State()).input + old(buffer[position..bytesInBuffer]))
    {
      ghost var start := position;
      while true
        invariant Valid() && start <= position && inputPos == old(inputPos) + (position - start)
        invariant input[..inputPos] == old(input[..inputPos]) + buffer[start..position]
        decreases bytesInBuffer - position
      {
        var c := GetNext();
        if c == STREAM_END {
          break;
        }
        input[inputPos] := c as Byte;
        inputPos := inputPos + 1;
        assert buffer[start..position] == buffer[start..position - 1] + [buffer[position - 1]];
      }
    }

    method SendResponse(r: Response)
      requires inputPos <= input.Length
      modifies this`state, this`responses
      ensures State() == Answer(old(State()), r)
    {
      responses := responses + [r];
      state := Done;
    }

    method TryParse(cmd: Text, hasFilename: bool) returns (ok: bool)
      requires Valid() && inputPos < 2 * BUFSIZ && |cmd| <= 6 && IsName(cmd)
      modifies this`filename, this`state, this`responses
      ensures Valid() && (State(), ok) == UploadModel.TryParse(old(State()), cmd, hasFilename)
    {
      BufferIsString(input[..], inputPos, cmd);
      assert input[..][..inputPos] == input[..inputPos];
      if !HasPrefix(input[..], cmd) {
        return false;
      }
      if hasFilename {
        if input[|cmd|] != SPACE {
          SendResponse(BadRequest);
          return false;
        }
        var nl := FindNewline(input[..], 0);
        if nl <= |cmd| {
          SendResponse(BadRequest);
          return false;
        }
        filename := input[..inputPos][|cmd| + 1..nl];
      } else if input[|cmd|] != NEWLINE {
        SendResponse(BadRequest);
        return false;
      }
      ok := true;
    }

    /** The first eight bytes behind the header, and what follows them. */
    method ReadSize(opens: bool)
      requires Valid() && headersize + 8 <= inputPos
      modifies this
      ensures Valid() && State() == ContinueSize(old(State()), [], opens)
      ensures var b := input[headersize..headersize + 8];
              totalBytesForPut == b[0] as int + 0x100 * b[1] as int + 0x1_0000 * b[2] as int + 0x100_0000 * b[3] as int
                                  + 0x1_0000_0000 * b[4] as int + 0x100_0000_0000 * b[5] as int
                                  + 0x1_0000_0000_0000 * b[6] as int + 0x100_0000_0000_0000 * b[7] as int
      ensures if opens then state == ReadingPutData && files == old(files)[filename := input[headersize + 8..inputPos]]
              else state == Done && files == old(files)
      ensures position == old(position) && bytesInBuffer == old(bytesInBuffer)
    {
      assert input[..inputPos] + [] == input[..inputPos];
      assert input[headersize..headersize + 8] == input[..inputPos][headersize..headersize + 8];
      assert input[headersize + 8..inputPos] == input[..inputPos][headersize + 8..];
      totalBytesForPut := DecodeSize(input[headersize..headersize + 8]);
      if !opens {
        SendResponse(InternalError);
        return;
      }
      StoreFirst(input[headersize + 8..inputPos]);
    }

    /** The file is opened, which empties it, and gets what came along with the size. */
    method StoreFirst(rest: Text)
      requires inputPos <= input.Length
      modifies this`files, this`totalWritten, this`state
      ensures State() == old(State()).(files := old(files)[filename := rest], phase := ReadingPutData,
                                       written := if rest == [] then old(totalWritten) else |rest|)
    {
      files := files[filename := []];
      if |rest| > 0 {
        files := files[filename := rest];
        totalWritten := |rest|;
      }
      state := ReadingPutData;
    }

    method ContinueReadingPut(opens: bool)
      requires Valid() && (state == ReadingPutSize || (state == ReadingPutData && position == 0))
      requires state == ReadingPutSize ==> inputPos + (bytesInBuffer - position) <= 2 * BUFSIZ
      modifies this, input
      ensures Valid() && bytesInBuffer == old(bytesInBuffer)
      ensures State() == if old(state) == ReadingPutSize
                         then ContinueSize(old(State()), old(buffer[position..bytesInBuffer]), opens)
                         else ContinueData(old(State()), old(buffer[..bytesInBuffer]))
    {
      if state == ReadingPutSize {
        ReadInput();
        if inputPos >= headersize + 8 {
          assert input[..inputPos] + [] == input[..inputPos];
          ReadSize(opens);
        }
      } else {
        files := files[filename := (if filename in files then files[filename] else []) + buffer[..bytesInBuffer]];
        totalWritten := totalWritten + bytesInBuffer;
      }
    }

    method SessionStartPut(cmdLen: nat, opens: bool)
      requires Valid() && cmdLen == 3 && position == bytesInBuffer
      modifies this, input
      ensures Valid() && bytesInBuffer == old(bytesInBuffer) && State() == StartPut(old(State()), opens)
    {
      headersize := cmdLen + |filename| + 2;
      state := ReadingPutSize;
      assert buffer[position..bytesInBuffer] == [];
      ContinueReadingPut(opens);
    }

    method ContinueReadingHeader(opens: bool)
      requires Valid() && state == ReadingHeader && inputPos + (bytesInBuffer - position) < 2 * BUFSIZ
      modifies this, input
      ensures Valid() && bytesInBuffer == old(bytesInBuffer)
      ensures State() == ContinueHeader(old(State()), old(buffer[position..bytesInBuffer]), opens)
    {
      ReadInput();
      var list := TryParse(LIST(), false);
      if list {
        SendResponse(Listed);
        return;
      }
      var get := TryParse(GET(), true);
      if get {
        responses := responses + [Sent(filename)];
        state := SendingGet;
        return;
      }
      var put := TryParse(PUT(), true);
      if put {
        SessionStartPut(3, opens);
        return;
      }
      var delete := TryParse(DELETE(), true);
      if delete {
        SendResponse(Deleted(filename));
        return;
      }
      if state == ReadingHeader && Unknown(input[..inputPos]) {
        SendResponse(BadRequest);
      }
    }

    /** A chunk arrived. The input buffer must be able to hold it while the header or the size is read. */
    method Receive(chunk: Text, opens: bool)
      requires Valid() && |chunk| <= BUFSIZ
      requires state == ReadingHeader ==> inputPos + |chunk| < 2 * BUFSIZ
      requires state == ReadingPutSize ==> inputPos + |chunk| <= 2 * BUFSIZ
      modifies this, buffer, input
      ensures Valid() && State() == Feed(old(State()), chunk, opens)
    {
      ghost var s := State();
      for k := 0 to |chunk|
        invariant buffer[..k] == chunk[..k] && unchanged(this) && unchanged(input)
      {
        buffer[k] := chunk[k];
      }
      position, bytesInBuffer := 0, |chunk|;
      assert State() == s && buffer[0..|chunk|] == buffer[..|chunk|] == chunk;
      match state {
        case ReadingHeader => ContinueReadingHeader(opens);
        case ReadingPutSize => ContinueReadingPut(opens);
        case ReadingPutData => ContinueReadingPut(opens);
        case SendingGet =>
        case Done =>
      }
    }

    method RemoveFromDirectory(name: Text)
      modifies this`directory
      ensures directory == RemoveFirst(old(directory), name)
    {
      for i := 0 to |directory|
        invariant directory == old(directory)
        invariant RemoveFirst(directory, name) == directory[..i] + RemoveFirst(directory[i..], name)
      {
        if directory[i] == name {
          directory := directory[..i] + directory[i + 1..];
          return;
        }
      }
    }

    /** The client closed the connection. */
    method CloseConnection()
      requires Valid()
      modifies this
      ensures Valid() && State() == Close(old(State()))
      ensures if old(state) == ReadingPutSize && (headersize == 0 || inputPos < headersize + 8) then
                responses == old(responses) + [BadRequest] && files == old(files) && directory == old(directory)
              else if old(state) == ReadingPutData && totalWritten == totalBytesForPut then
                responses == old(responses) + [Ok] && files == old(files) && filename in directory
              else if old(state) == ReadingPutData then
                responses == old(responses) + [BadFileSize] && files == old(files) - {filename}
              else
                responses == old(responses) && files == old(files) && directory == old(directory)
    {
      if state == ReadingPutSize {
        if headersize == 0 || inputPos < headersize + 8 {
          SendResponse(BadRequest);
        }
      } else if state == ReadingPutData {
        if totalWritten == totalBytesForPut {
          SendResponse(Ok);
          if filename !in directory {
            directory := directory + [filename];
          }
        } else {
          SendResponse(BadFileSize);
          files := files - {filename};
          RemoveFromDirectory(filename);
        }
      }
    }
  }

  /** The session took in the first `r` bytes of an upload, or refused it; the chunks are the rest. */
  ghost predicate Underway(s: Session, s0: Session, name: Text, size: Text, payload: Text, r: nat, e: nat,
                           chunks: seq<Text>, opens: bool) {
    || s.phase == Done
    || (&& Received(s, s0, name, size, payload, r) && r <= e <= |Message(name, size, payload)|
        && Message(name, size, payload)[r..e] == Concat(chunks) && (opens || r < |Header(name)| + 8))
  }

  lemma ChunkKeepsUnderway(s: Session, s0: Session, name: Text, size: Text, payload: Text, r: nat, e: nat,
                           chunks: seq<Text>, opens: bool)
    requires Underway(s, s0, name, size, payload, r, e, chunks, opens) && NonEmpty(chunks) && chunks != []
    requires IsName(name) && s0 == Create(s0.files, s0.directory)
    ensures Underway(Feed(s, chunks[0], opens), s0, name, size, payload, r + |chunks[0]|, e, chunks[1..], opens)
    ensures 3 <= r + |chunks[0]| < |Header(name)| ==> Feed(s, chunks[0], opens).phase == Done
  {
    var s', r' := Feed(s, chunks[0], opens), r + |chunks[0]|;
    if s.phase != Done {
      FirstOfRest(Message(name, size, payload), r, e, chunks);
      FeedFirst(s, s0, name, size, payload, r, chunks[0], opens);
      assert s'.phase == Done || (Received(s', s0, name, size, payload, r') && (opens || r' < |Header(name)| + 8));
    } else {
      assert s' == s;
    }
  }

  lemma InputUnderway(s: Session, s0: Session, name: Text, size: Text, payload: Text, r: nat, e: nat,
                      chunks: seq<Text>, opens: bool)
    requires Underway(s, s0, name, size, payload, r, e, chunks, opens) && s0 == Create(s0.files, s0.directory)
    ensures s.phase == ReadingHeader ==> |s.input| < 3
    ensures s.phase == ReadingPutSize ==> |s.input| == r && |Header(name)| <= r < |Header(name)| + 8
  {}

  /** The input buffer can hold every chunk that arrives between the end of the header and that of the size,
      unless the request was refused before. */
  predicate Roomy(chunks: seq<Text>, r: nat, h: nat)
    decreases |chunks|
  {
    chunks == []
    || var r' := r + |chunks[0]|;
       (h <= r < h + 8 ==> r' <= 2 * BUFSIZ) && (3 <= r' < h || Roomy(chunks[1..], r', h))
  }

  /** Names up to 8180 bytes leave room enough. */
  lemma {:induction false} ShortNamesAreRoomy(chunks: seq<Text>, r: nat, h: nat)
    requires h <= 8185 && forall k | 0 <= k < |chunks| :: |chunks[k]| <= 8192
    ensures Roomy(chunks, r, h)
    decreases |chunks|
  {
    if chunks != [] { ShortNamesAreRoomy(chunks[1..], r + |chunks[0]|, h); }
  }

  method ServeRest(c: Connection, ghost s0: Session, ghost name: Text, ghost size: Text, ghost payload: Text,
                   ghost r: nat, ghost e: nat, chunks: seq<Text>, opens: bool)
    requires c.Valid() && IsName(name) && s0 == Create(s0.files, s0.directory)
    requires c.state == Done || Roomy(chunks, r, |Header(name)|)
    requires Underway(c.State(), s0, name, size, payload, r, e, chunks, opens)
    requires forall k | 0 <= k < |chunks| :: 0 < |chunks[k]| <= BUFSIZ
    modifies c, c.buffer, c.input
    ensures c.Valid() && c.State() == FeedAll(old(c.State()), chunks, opens)
    decreases |chunks|
  {
    if chunks != [] {
      ChunkKeepsUnderway(c.State(), s0, name, size, payload, r, e, chunks, opens);
      InputUnderway(c.State(), s0, name, size, payload, r, e, chunks, opens);
      c.Receive(chunks[0], opens);
      ServeRest(c, s0, name, size, payload, r + |chunks[0]|, e, chunks[1..], opens);
    }
  }

  /** The first `r` bytes of an upload that declares the size `n` over one connection, in chunks for which the buffer
      has room, up to the close. */
  method ServeUpload(files: map<Text, Text>, directory: seq<Text>, ghost name: Text, ghost size: Text, ghost n: nat,
                     ghost payload: Text, ghost r: nat, chunks: seq<Text>, opens: bool)
    returns (responses: seq<Response>, files': map<Text, Text>, directory': seq<Text>)
    requires forall i | 0 <= i < |name| :: name[i] != 0 && name[i] != 10
    requires |size| == 8 && n < 0x1_0000_0000_0000_0000
    requires size[0] as int == n % 0x100 && size[1] as int == n / 0x100 % 0x100
    requires size[2] as int == n / 0x1_0000 % 0x100 && size[3] as int == n / 0x100_0000 % 0x100
    requires size[4] as int == n / 0x1_0000_0000 % 0x100 && size[5] as int == n / 0x100_0000_0000 % 0x100
    requires size[6] as int == n / 0x1_0000_0000_0000 % 0x100 && size[7] as int == n / 0x100_0000_0000_0000 % 0x100
    requires r <= |name| + 13 + |payload| && (|name| <= 8180 || Roomy(chunks, 0, |name| + 5))
    requires forall k | 0 <= k < |chunks| :: 0 < |chunks[k]| <= 8192
    requires Concat(chunks) == ([80, 85, 84, 32] + name + [10] + size + payload)[..r]
    ensures if Cuts(chunks, 0, |name| + 5) then responses == [BadRequest] && files' == files && directory' == directory
            else if r < 3 then responses == [] && files' == files && directory' == directory
            else if r < |name| + 13 then responses == [BadRequest] && files' == files && directory' == directory
            else if !opens then responses == [InternalError] && files' == files && directory' == directory
            else if r - |name| - 13 == n then
              && responses == [Ok] && files' == files[name := payload[..n]]
              && forall x :: x in directory' <==> x in directory || x == name
            else
              && responses == [BadFileSize] && files' == files - {name}
              && (Listing(directory) ==> forall x :: x in directory' <==> x in directory && x != name)
  {
    var c := new Connection(files, directory);
    MessageLiteral(name, size, payload);
    assert Message(name, size, payload)[..0] == [];
    assert Message(name, size, payload)[0..r] == Message(name, size, payload)[..r];
    if |name| <= 8180 { ShortNamesAreRoomy(chunks, 0, |name| + 5); }
    ServeRest(c, Create(files, directory), name, size, payload, 0, r, chunks, opens);
    c.CloseConnection();
    UploadDecided(files, directory, name, size, n, payload, r, chunks, opens);
    responses, files', directory' := c.responses, c.files, c.directory;
  }
}
