/** One session of the file server on values: what every chunk that the socket delivers does to it. */
module UploadModel {
  import opened Bytes

  type Text = seq<Byte>

  const BUFSIZ := 8192
  const SPACE: Byte := 32
  const NEWLINE: Byte := 10

  /** Neither the end of a C string nor the end of a line. */
  predicate IsName(name: Text) { forall i | 0 <= i < |name| :: name[i] != 0 && name[i] != NEWLINE }

  function PUT(): (t: Text)
    ensures |t| == 3 && t[0] == 80 && IsName(t)
  {
    [80, 85, 84]
  }

  function GET(): (t: Text)
    ensures |t| == 3 && t[0] == 71 && IsName(t)
  {
    [71, 69, 84]
  }

  function LIST(): (t: Text)
    ensures |t| == 4 && t[0] == 76 && IsName(t)
  {
    [76, 73, 83, 84]
  }

  function DELETE(): (t: Text)
    ensures |t| == 6 && t[0] == 68 && IsName(t)
  {
    [68, 69, 76, 69, 84, 69]
  }

  datatype Phase = ReadingHeader | ReadingPutSize | ReadingPutData | SendingGet | Done

  /** The answers; what LIST, GET and DELETE do beyond answering is not part of this model. */
  datatype Response = Ok | BadRequest | BadFileSize | InternalError | Listed | Sent(name: Text) | Deleted(name: Text)

  /** `input` holds what was received before the data of the file; behind it the buffer is zero. */
  datatype Session = Session(phase: Phase, input: Text, filename: Text, headersize: nat, declared: nat, written: nat,
                             responses: seq<Response>, files: map<Text, Text>, directory: seq<Text>)

  function Create(files: map<Text, Text>, directory: seq<Text>): Session {
    Session(ReadingHeader, [], [], 0, 0, 0, [], files, directory)
  }

  function Answer(s: Session, r: Response): Session { s.(phase := Done, responses := s.responses + [r]) }

  predicate HasPrefix(s: Text, cmd: Text) { |cmd| <= |s| && s[..|cmd|] == cmd }

  /** The first newline of the C string that continues at `k`, or -1. */
  function FindNewline(s: Text, k: nat): (nl: int)
    requires k <= |s|
    ensures nl == -1 || (k <= nl < |s| && s[nl] == NEWLINE && forall i | k <= i < nl :: s[i] != 0 && s[i] != NEWLINE)
    decreases |s| - k
  {
    if k == |s| || s[k] == 0 then -1 else if s[k] == NEWLINE then k else FindNewline(s, k + 1)
  }

  /** A newline within the command itself cannot be found, because no command has one. */
  function TryParse(s: Session, cmd: Text, hasFilename: bool): (Session, bool) {
    if !HasPrefix(s.input, cmd) then (s, false)
    else if hasFilename then
      var nl := FindNewline(s.input, 0);
      if |s.input| == |cmd| || s.input[|cmd|] != SPACE || nl <= |cmd| then (Answer(s, BadRequest), false)
      else (s.(filename := s.input[|cmd| + 1..nl]), true)
    else if |s.input| == |cmd| || s.input[|cmd|] != NEWLINE then (Answer(s, BadRequest), false)
    else (s, true)
  }

  /** No command starts like this. */
  predicate Unknown(input: Text) {
    || input == [] || input[0] !in [71, 80, 76, 68]
    || (|input| >= 3 && input[0] == 71 && !HasPrefix(input, GET()))
    || (|input| >= 3 && input[0] == 80 && !HasPrefix(input, PUT()))
    || (|input| >= 4 && input[0] == 76 && !HasPrefix(input, LIST()))
    || (|input| >= 6 && input[0] == 68 && !HasPrefix(input, DELETE()))
  }

  /** `opens` tells whether the file can be opened for writing. */
  function ContinueHeader(s: Session, chunk: Text, opens: bool): Session {
    var (s0, list) := TryParse(s.(input := s.input + chunk), LIST(), false);
    if list then Answer(s0, Listed)
    else
      var (s1, get) := TryParse(s0, GET(), true);
      if get then s1.(phase := SendingGet, responses := s1.responses + [Sent(s1.filename)])
      else
        var (s2, put) := TryParse(s1, PUT(), true);
        if put then StartPut(s2, opens)
        else
          var (s3, delete) := TryParse(s2, DELETE(), true);
          if delete then Answer(s3, Deleted(s3.filename))
          else if s3.phase == ReadingHeader && Unknown(s3.input) then Answer(s3, BadRequest)
          else s3
  }

  function StartPut(s: Session, opens: bool): Session {
    ContinueSize(s.(headersize := 3 + |s.filename| + 2, phase := ReadingPutSize), [], opens)
  }

  /** Eight bytes, the lowest first. */
  function DecodeSize(b: Text): nat
    requires |b| == 8
  {
    b[0] as int + 0x100 * b[1] as int + 0x1_0000 * b[2] as int + 0x100_0000 * b[3] as int
    + 0x1_0000_0000 * (b[4] as int + 0x100 * b[5] as int + 0x1_0000 * b[6] as int + 0x100_0000 * b[7] as int)
  }

  function ContinueSize(s: Session, chunk: Text, opens: bool): Session {
    var input := s.input + chunk;
    if |input| < s.headersize + 8 then s.(input := input)
    else
      var s1 := s.(input := input, declared := DecodeSize(input[s.headersize..s.headersize + 8]));
      var rest := input[s.headersize + 8..];
      if !opens then Answer(s1, InternalError)
      else s1.(files := s.files[s.filename := rest], phase := ReadingPutData,
               written := if rest == [] then s.written else |rest|)
  }

  function ContinueData(s: Session, chunk: Text): Session {
    var before := if s.filename in s.files then s.files[s.filename] else [];
    s.(files := s.files[s.filename := before + chunk], written := s.written + |chunk|)
  }

  function Feed(s: Session, chunk: Text, opens: bool): Session {
    match s.phase
    case ReadingHeader => ContinueHeader(s, chunk, opens)
    case ReadingPutSize => ContinueSize(s, chunk, opens)
    case ReadingPutData => ContinueData(s, chunk)
    case SendingGet => s
    case Done => s
  }

  function FeedAll(s: Session, chunks: seq<Text>, opens: bool): Session
    decreases |chunks|
  {
    if chunks == [] then s else FeedAll(Feed(s, chunks[0], opens), chunks[1..], opens)
  }

  function RemoveFirst(names: seq<Text>, name: Text): seq<Text> {
    if names == [] then [] else if names[0] == name then names[1..] else [names[0]] + RemoveFirst(names[1..], name)
  }

  /** Every file is listed once. */
  ghost predicate Listing(names: seq<Text>) { forall i, j | 0 <= i < j < |names| :: names[i] != names[j] }

  lemma {:induction false} RemoveFirstUnlists(names: seq<Text>, name: Text)
    requires Listing(names)
    ensures Listing(RemoveFirst(names, name))
    ensures forall n :: n in RemoveFirst(names, name) <==> n in names && n != name
  {
    if names != [] {
      RemoveFirstUnlists(names[1..], name);
      assert forall n :: n in names <==> n == names[0] || n in names[1..];
      assert names[0] !in names[1..];
    }
  }

  /** A file that was not completed is removed. */
  function Conclude(s: Session, ok: bool): Session {
    if ok then
      Answer(s, Ok).(directory := if s.filename in s.directory then s.directory else s.directory + [s.filename])
    else
      Answer(s, BadFileSize).(files := s.files - {s.filename}, directory := RemoveFirst(s.directory, s.filename))
  }

  /** The client closed the connection. */
  function Close(s: Session): Session {
    match s.phase
    case ReadingPutSize =>
      if s.headersize == 0 || |s.input| < s.headersize + 8 then Answer(s, BadRequest) else s
    case ReadingPutData => Conclude(s, s.written == s.declared)
    case ReadingHeader => s
    case SendingGet => s
    case Done => s
  }

  // ---- Uploads ----

  function Header(name: Text): Text { PUT() + [SPACE] + name + [NEWLINE] }

  /** What the client sends: the header, the size, and the contents. */
  function Message(name: Text, size: Text, payload: Text): Text { Header(name) + size + payload }

  lemma {:induction false} FirstNewline(s: Text, k: nat, n: nat)
    requires k <= n <= |s| && forall i | k <= i < n :: s[i] != 0 && s[i] != NEWLINE
    ensures FindNewline(s, k) == if n < |s| && s[n] == NEWLINE then n
                                 else if n == |s| || s[n] == 0 then -1 else FindNewline(s, n)
    decreases n - k
  {
    if k < n { FirstNewline(s, k + 1, n); }
  }

  /** The session after `r` bytes of the message, started from `s0`. */
  ghost predicate Received(s: Session, s0: Session, name: Text, size: Text, payload: Text, r: nat) {
    var m, h := Message(name, size, payload), |Header(name)|;
    && |size| == 8 && r <= |m| && s.responses == [] && s.directory == s0.directory
    && (r < 3 || h <= r)
    && (r < 3 ==> s == s0.(input := m[..r]))
    && (h <= r ==> s.filename == name && s.headersize == h)
    && (h <= r < h + 8 ==> s == Session(ReadingPutSize, m[..r], name, h, 0, 0, [], s0.files, s0.directory))
    && (h + 8 <= r ==>
          && s.phase == ReadingPutData && s.declared == DecodeSize(size) && s.written == r - h - 8
          && s.files == s0.files[name := m[h + 8..r]])
  }

  lemma HeaderParts(name: Text)
    ensures var t := Header(name);
            && |t| == |name| + 5 && t[0] == 80 && t[..3] == PUT() && t[3] == SPACE
            && t[4..|t| - 1] == name && t[|t| - 1] == NEWLINE
  {
    var t := Header(name);
    assert t[0] == PUT()[0];
  }

  lemma MessageParts(name: Text, size: Text, payload: Text, r: nat)
    requires |size| == 8 && r <= |Message(name, size, payload)|
    ensures var m, h := Message(name, size, payload), |Header(name)|;
            && h == |name| + 5 && |m| == h + 8 + |payload|
            && (r >= 1 ==> m[..r][0] == 80) && (r >= 3 ==> m[..r][..3] == PUT()) && (r >= 4 ==> m[..r][3] == SPACE)
            && (forall i | 4 <= i < r && i < h - 1 :: m[..r][i] == name[i - 4])
            && (r >= h ==> m[..r][h - 1] == NEWLINE && m[..r][4..h - 1] == name)
            && (r >= h + 8 ==> m[..r][h..h + 8] == size) && m[h + 8..] == payload
  {
    var m, t, h := Message(name, size, payload), Header(name), |Header(name)|;
    HeaderParts(name);
    assert m == t + (size + payload);
    assert forall i | 0 <= i < h :: m[i] == t[i];
    forall i | 4 <= i < h - 1 ensures t[i] == name[i - 4] {
      assert t[4..h - 1][i - 4] == t[i];
    }
    if r >= 3 {
      assert m[..r][..3] == t[..3];
    }
    if r >= h {
      assert m[..r][4..h - 1] == t[4..h - 1];
    }
    assert m[h..h + 8] == size;
    if r >= h + 8 {
      assert m[..r][h..h + 8] == m[h..h + 8];
    }
  }

  lemma OtherCommand(s: Text, cmd: Text)
    requires s != [] && cmd != [] && s[0] != cmd[0]
    ensures !HasPrefix(s, cmd)
  {
    assert |cmd| <= |s| ==> s[..|cmd|][0] == s[0];
  }

  /** The parsers on what has been received while the session still reads the header. */
  lemma ParsePut(s: Session, name: Text, size: Text, payload: Text, r: nat)
    requires IsName(name) && |size| == 8 && 0 < r <= |Message(name, size, payload)|
    requires s.input == Message(name, size, payload)[..r]
    ensures !HasPrefix(s.input, LIST()) && !HasPrefix(s.input, GET()) && !HasPrefix(s.input, DELETE())
    ensures var h := |Header(name)|;
            if r < 3 then TryParse(s, PUT(), true) == (s, false) && !Unknown(s.input)
            else if r < h then TryParse(s, PUT(), true) == (Answer(s, BadRequest), false)
            else TryParse(s, PUT(), true) == (s.(filename := name), true)
  {
    var h := |Header(name)|;
    MessageParts(name, size, payload, r);
    assert s.input[0] == 80;
    OtherCommand(s.input, LIST());
    OtherCommand(s.input, GET());
    OtherCommand(s.input, DELETE());
    if r >= 3 { FirstNewline(s.input, 0, if r < h then r else h - 1); }
  }

  /** The session gave up without touching any file. */
  ghost predicate Refused(s: Session, s0: Session, r: Response) {
    s.phase == Done && s.responses == [r] && s.files == s0.files && s.directory == s0.directory
  }

  /** With the header and perhaps more in the buffer, the size is read as soon as it is there. */
  lemma SizeReceives(s: Session, s0: Session, name: Text, size: Text, payload: Text, chunk: Text, r': nat, opens: bool)
    requires |size| == 8 && |Header(name)| <= r' <= |Message(name, size, payload)|
    requires s == Session(ReadingPutSize, s.input, name, |Header(name)|, 0, 0, [], s0.files, s0.directory)
    requires s.input + chunk == Message(name, size, payload)[..r']
    ensures var s' := ContinueSize(s, chunk, opens);
            if opens || r' < |Header(name)| + 8 then Received(s', s0, name, size, payload, r')
            else Refused(s', s0, InternalError)
  {
    var m, h := Message(name, size, payload), |Header(name)|;
    MessageParts(name, size, payload, r');
    if h + 8 <= r' { assert m[..r'][h + 8..] == m[h + 8..r']; }
  }

  lemma DataReceives(s: Session, s0: Session, name: Text, size: Text, payload: Text, r: nat, chunk: Text)
    requires Received(s, s0, name, size, payload, r) && |Header(name)| + 8 <= r
    requires r + |chunk| <= |Message(name, size, payload)| && chunk == Message(name, size, payload)[r..r + |chunk|]
    ensures Received(ContinueData(s, chunk), s0, name, size, payload, r + |chunk|)
  {
    var m, h := Message(name, size, payload), |Header(name)|;
    assert m[h + 8..r] + chunk == m[h + 8..r + |chunk|];
  }

  /** A chunk that does not end within the header beyond its third byte is taken in; only when the size is
      complete and the file cannot be opened, the session gives up. */
  lemma FeedReceives(s: Session, s0: Session, name: Text, size: Text, payload: Text, r: nat, chunk: Text, opens: bool)
    requires IsName(name) && s0 == Create(s0.files, s0.directory) && Received(s, s0, name, size, payload, r)
    requires chunk != [] && r + |chunk| <= |Message(name, size, payload)|
    requires chunk == Message(name, size, payload)[r..r + |chunk|]
    requires r + |chunk| < 3 || |Header(name)| <= r + |chunk|
    requires !opens ==> r < |Header(name)| + 8
    ensures var s' := Feed(s, chunk, opens);
            if opens || r + |chunk| < |Header(name)| + 8 then Received(s', s0, name, size, payload, r + |chunk|)
            else Refused(s', s0, InternalError)
  {
    var m, h, r' := Message(name, size, payload), |Header(name)|, r + |chunk|;
    assert m[..r] + chunk == m[..r'];
    if r < 3 {
      var s1 := s.(input := m[..r']);
      ParsePut(s1, name, size, payload, r');
      if h <= r' {
        assert m[..r'] + [] == m[..r'];
        var s2 := s1.(filename := name, headersize := h, phase := ReadingPutSize);
        SizeReceives(s2, s0, name, size, payload, [], r', opens);
      }
    } else if r < h + 8 {
      SizeReceives(s, s0, name, size, payload, chunk, r', opens);
    } else {
      DataReceives(s, s0, name, size, payload, r, chunk);
    }
  }

  /** A chunk that ends within the header beyond its third byte makes the session refuse the request. */
  lemma FeedRefuses(s: Session, s0: Session, name: Text, size: Text, payload: Text, r: nat, chunk: Text, opens: bool)
    requires IsName(name) && s0 == Create(s0.files, s0.directory) && Received(s, s0, name, size, payload, r)
    requires chunk != [] && 3 <= r + |chunk| < |Header(name)| && r < 3
    requires chunk == Message(name, size, payload)[r..r + |chunk|]
    ensures Refused(Feed(s, chunk, opens), s0, BadRequest)
  {
    var m, r' := Message(name, size, payload), r + |chunk|;
    assert m[..r] + chunk == m[..r'];
    ParsePut(s.(input := m[..r']), name, size, payload, r');
  }

  predicate NonEmpty(chunks: seq<Text>) { forall k | 0 <= k < |chunks| :: chunks[k] != [] }

  /** Some chunk ends within the header beyond its third byte. */
  predicate Cuts(chunks: seq<Text>, r: nat, h: nat) {
    chunks != [] && (3 <= r + |chunks[0]| < h || Cuts(chunks[1..], r + |chunks[0]|, h))
  }

  lemma {:induction false} DoneStays(s: Session, chunks: seq<Text>, opens: bool)
    requires s.phase == Done
    ensures FeedAll(s, chunks, opens) == s
    decreases |chunks|
  {
    if chunks != [] { DoneStays(s, chunks[1..], opens); }
  }

  /** What becomes of the first `e` bytes of an upload: refused for a cut header, refused because the file cannot
      be opened, or taken in. */
  ghost predicate TakenIn(s: Session, s0: Session, name: Text, size: Text, payload: Text, e: nat, cut: bool,
                          opens: bool) {
    if cut then Refused(s, s0, BadRequest)
    else if opens || e < |Header(name)| + 8 then Received(s, s0, name, size, payload, e)
    else Refused(s, s0, InternalError)
  }

  lemma FirstOfRest(m: Text, r: nat, e: nat, chunks: seq<Text>)
    requires r <= e <= |m| && chunks != [] && m[r..e] == Concat(chunks)
    ensures r + |chunks[0]| <= e && chunks[0] == m[r..r + |chunks[0]|]
    ensures m[r + |chunks[0]|..e] == Concat(chunks[1..])
  {
    var first := chunks[0];
    assert m[r..e][..|first|] == first && m[r..e][|first|..] == Concat(chunks[1..]);
    assert m[r..r + |first|] == m[r..e][..|first|];
    assert m[r + |first|..e] == m[r..e][|first|..];
  }

  /** What one chunk does to an upload that is under way. */
  lemma FeedFirst(s: Session, s0: Session, name: Text, size: Text, payload: Text, r: nat, chunk: Text, opens: bool)
    requires IsName(name) && s0 == Create(s0.files, s0.directory) && Received(s, s0, name, size, payload, r)
    requires (!opens ==> r < |Header(name)| + 8) && chunk != [] && r + |chunk| <= |Message(name, size, payload)|
    requires chunk == Message(name, size, payload)[r..r + |chunk|]
    ensures var s', r' := Feed(s, chunk, opens), r + |chunk|;
            if 3 <= r' < |Header(name)| then Refused(s', s0, BadRequest)
            else if opens || r' < |Header(name)| + 8 then Received(s', s0, name, size, payload, r')
            else Refused(s', s0, InternalError)
  {
    if 3 <= r + |chunk| < |Header(name)| {
      FeedRefuses(s, s0, name, size, payload, r, chunk, opens);
    } else {
      FeedReceives(s, s0, name, size, payload, r, chunk, opens);
    }
  }

  lemma {:induction false} FeedAllReceives(s: Session, s0: Session, name: Text, size: Text, payload: Text, r: nat,
                                           e: nat, chunks: seq<Text>, opens: bool)
    requires !opens ==> r < |Header(name)| + 8
    requires IsName(name) && s0 == Create(s0.files, s0.directory) && Received(s, s0, name, size, payload, r)
    requires NonEmpty(chunks) && r <= e <= |Message(name, size, payload)|
    requires Message(name, size, payload)[r..e] == Concat(chunks)
    ensures TakenIn(FeedAll(s, chunks, opens), s0, name, size, payload, e, Cuts(chunks, r, |Header(name)|), opens)
    decreases |chunks|
  {
    var m, h := Message(name, size, payload), |Header(name)|;
    if chunks == [] {
      assert r == e;
    } else {
      var s', r' := Feed(s, chunks[0], opens), r + |chunks[0]|;
      FirstOfRest(m, r, e, chunks);
      FeedFirst(s, s0, name, size, payload, r, chunks[0], opens);
      if s'.phase != Done {
        FeedAllReceives(s', s0, name, size, payload, r', e, chunks[1..], opens);
      } else {
        DoneStays(s', chunks[1..], opens);
        if h <= r' { CutsEnd(chunks[1..], r', h); }
      }
    }
  }

  lemma {:induction false} CutsEnd(chunks: seq<Text>, r: nat, h: nat)
    requires h <= r
    ensures !Cuts(chunks, r, h)
    decreases |chunks|
  {
    if chunks != [] { CutsEnd(chunks[1..], r + |chunks[0]|, h); }
  }

  /** The eight bytes of a size are its digits to base 256, the lowest first. */
  lemma DecodesDigits(b: Text, n: nat)
    requires |b| == 8 && n < 0x1_0000_0000_0000_0000
    requires b[0] as int == n % 0x100 && b[1] as int == n / 0x100 % 0x100
    requires b[2] as int == n / 0x1_0000 % 0x100 && b[3] as int == n / 0x100_0000 % 0x100
    requires b[4] as int == n / 0x1_0000_0000 % 0x100 && b[5] as int == n / 0x100_0000_0000 % 0x100
    requires b[6] as int == n / 0x1_0000_0000_0000 % 0x100 && b[7] as int == n / 0x100_0000_0000_0000 % 0x100
    ensures DecodeSize(b) == n
  {
    assert n / 0x1_0000 == n / 0x100 / 0x100;
    assert n / 0x100_0000 == n / 0x1_0000 / 0x100;
    assert n / 0x1_0000_0000 == n / 0x100_0000 / 0x100;
    assert n / 0x100_0000_0000 == n / 0x1_0000_0000 / 0x100;
    assert n / 0x1_0000_0000_0000 == n / 0x100_0000_0000 / 0x100;
    assert n / 0x100_0000_0000_0000 == n / 0x1_0000_0000_0000 / 0x100;
    Horner(b, n, n / 0x100, n / 0x1_0000, n / 0x100_0000, n / 0x1_0000_0000, n / 0x100_0000_0000,
           n / 0x1_0000_0000_0000, n / 0x100_0000_0000_0000);
  }

  lemma Horner(b: Text, n: nat, n1: nat, n2: nat, n3: nat, n4: nat, n5: nat, n6: nat, n7: nat)
    requires |b| == 8 && n7 < 0x100 && b[7] as int == n7
    requires n == 0x100 * n1 + b[0] as int && n1 == 0x100 * n2 + b[1] as int
    requires n2 == 0x100 * n3 + b[2] as int && n3 == 0x100 * n4 + b[3] as int
    requires n4 == 0x100 * n5 + b[4] as int && n5 == 0x100 * n6 + b[5] as int
    requires n6 == 0x100 * n7 + b[6] as int
    ensures DecodeSize(b) == n
  {}

  lemma MessageLiteral(name: Text, size: Text, payload: Text)
    ensures |Header(name)| == |name| + 5
    ensures Message(name, size, payload) == [80, 85, 84, 32] + name + [10] + size + payload
  {
    assert PUT() + [SPACE] == [80, 85, 84, 32];
  }

  /** What the server makes of the first `r` bytes of an upload that declares the size `n`, when the client closes
      the connection behind them. A split that falls into the header behind its third byte makes it refuse the
      request, and so does an end before the size is complete; nothing is stored then. Otherwise the file is stored
      exactly as sent, however the network splits it, if it can be opened, and it is accepted exactly when its length
      is the declared size; otherwise it is removed. */
  lemma UploadDecided(files: map<Text, Text>, directory: seq<Text>, name: Text, size: Text, n: nat, payload: Text,
                      r: nat, chunks: seq<Text>, opens: bool)
    requires forall i | 0 <= i < |name| :: name[i] != 0 && name[i] != 10
    requires |size| == 8 && n < 0x1_0000_0000_0000_0000
    requires size[0] as int == n % 0x100 && size[1] as int == n / 0x100 % 0x100
    requires size[2] as int == n / 0x1_0000 % 0x100 && size[3] as int == n / 0x100_0000 % 0x100
    requires size[4] as int == n / 0x1_0000_0000 % 0x100 && size[5] as int == n / 0x100_0000_0000 % 0x100
    requires size[6] as int == n / 0x1_0000_0000_0000 % 0x100 && size[7] as int == n / 0x100_0000_0000_0000 % 0x100
    requires r <= |name| + 13 + |payload| && forall k | 0 <= k < |chunks| :: chunks[k] != []
    requires Concat(chunks) == ([80, 85, 84, 32] + name + [10] + size + payload)[..r]
    ensures var last := FeedAll(Create(files, directory), chunks, opens);
            var end := Close(last);
            if Cuts(chunks, 0, |name| + 5) then
              end.responses == [BadRequest] && end.files == files && end.directory == directory
            else if r < 3 then
              end.responses == [] && end.files == files && end.directory == directory
            else if r < |name| + 13 then
              end.responses == [BadRequest] && end.files == files && end.directory == directory
            else if !opens then
              end.responses == [InternalError] && end.files == files && end.directory == directory
            else
              && last.responses == [] && last.files == files[name := payload[..r - |name| - 13]]
              && Decided(end, files, directory, name, payload[..r - |name| - 13], r - |name| - 13 == n)
  {
    var s0, m := Create(files, directory), Message(name, size, payload);
    MessageLiteral(name, size, payload);
    assert m[..0] == [] && m[0..r] == m[..r];
    FeedAllReceives(s0, s0, name, size, payload, 0, r, chunks, opens);
    if 3 <= r < |name| + 5 { CutAtEnd(chunks, 0, |name| + 5); }
    if !Cuts(chunks, 0, |name| + 5) && opens && r >= |name| + 13 {
      DecodesDigits(size, n);
      ReceivedDecided(FeedAll(s0, chunks, opens), files, directory, name, size, payload, r);
    }
  }

  /** Chunks that end within the header cut it. */
  lemma {:induction false} CutAtEnd(chunks: seq<Text>, r: nat, h: nat)
    requires r < 3 <= r + |Concat(chunks)| < h
    ensures Cuts(chunks, r, h)
    decreases |chunks|
  {
    if r + |chunks[0]| < 3 { CutAtEnd(chunks[1..], r + |chunks[0]|, h); }
  }

  /** The end of an upload that was taken in: a file of the declared size is stored and listed, any other is
      neither. */
  ghost predicate Decided(s: Session, files: map<Text, Text>, directory: seq<Text>, name: Text, payload: Text,
                          complete: bool)
  {
    if complete then
      && s.responses == [Ok] && s.files == files[name := payload]
      && (forall n :: n in s.directory <==> n in directory || n == name)
      && (Listing(directory) ==> Listing(s.directory))
    else
      && s.responses == [BadFileSize] && s.files == files - {name}
      && (Listing(directory) ==>
            Listing(s.directory) && forall n :: n in s.directory <==> n in directory && n != name)
  }

  lemma ReceivedDecided(s: Session, files: map<Text, Text>, directory: seq<Text>, name: Text, size: Text, payload: Text,
                        r: nat)
    requires |size| == 8 && |Header(name)| + 8 <= r <= |Message(name, size, payload)|
    requires Received(s, Create(files, directory), name, size, payload, r)
    ensures var stored := payload[..r - |name| - 13];
            && s.responses == [] && s.files == files[name := stored]
            && Decided(Close(s), files, directory, name, stored, DecodeSize(size) == r - |name| - 13)
  {
    var m, h := Message(name, size, payload), |Header(name)|;
    MessageParts(name, size, payload, |m|);
    assert m[h + 8..r] == payload[..r - |name| - 13];
    if Listing(directory) { RemoveFirstUnlists(directory, name); }
  }

  /** Two ways to split the same message end alike if neither cuts the header. */
  lemma SplitsAgree(files: map<Text, Text>, directory: seq<Text>, name: Text, size: Text, payload: Text,
                    a: seq<Text>, b: seq<Text>)
    requires IsName(name) && |size| == 8 && NonEmpty(a) && NonEmpty(b)
    requires Concat(a) == Concat(b) == Message(name, size, payload)
    requires !Cuts(a, 0, |Header(name)|) && !Cuts(b, 0, |Header(name)|)
    ensures var x := Close(FeedAll(Create(files, directory), a, true));
            var y := Close(FeedAll(Create(files, directory), b, true));
            x.responses == y.responses && x.files == y.files && x.directory == y.directory
  {
    var s0 := Create(files, directory);
    var m := Message(name, size, payload);
    assert m[..0] == [] && m[0..|m|] == m;
    FeedAllReceives(s0, s0, name, size, payload, 0, |m|, a, true);
    FeedAllReceives(s0, s0, name, size, payload, 0, |m|, b, true);
  }

  // ---- The other requests ----

  /** The parser accepts exactly the command, a space, a name, and a newline. */
  lemma NamedRequest(s: Session, cmd: Text, name: Text, rest: Text)
    requires IsName(cmd) && IsName(name) && s.input == cmd + [SPACE] + name + [NEWLINE] + rest
    ensures HasPrefix(s.input, cmd) && TryParse(s, cmd, true) == (s.(filename := name), true)
  {
    var n := |cmd| + 1 + |name|;
    assert s.input[..|cmd|] == cmd && s.input[|cmd| + 1..n] == name;
    forall i | 0 <= i < n ensures s.input[i] != 0 && s.input[i] != NEWLINE {
      assert s.input[i] == if i < |cmd| then cmd[i] else if i == |cmd| then SPACE else name[i - |cmd| - 1];
    }
    FirstNewline(s.input, 0, n);
  }

  lemma OnlyNamedRequests(s: Session, cmd: Text) returns (name: Text, rest: Text)
    requires HasPrefix(s.input, cmd)
    ensures var (s', ok) := TryParse(s, cmd, true);
            if ok then IsName(name) && s.input == cmd + [SPACE] + name + [NEWLINE] + rest && s' == s.(filename := name)
            else s' == Answer(s, BadRequest)
  {
    var nl := FindNewline(s.input, 0);
    name, rest := [], [];
    if TryParse(s, cmd, true).1 {
      name, rest := s.input[|cmd| + 1..nl], s.input[nl + 1..];
      assert s.input == s.input[..|cmd|] + [SPACE] + name + [NEWLINE] + rest;
    }
  }

  /** The commands as bytes differ in the first one. */
  lemma OneCommand(t: Text)
    requires t != []
    ensures HasPrefix(t, GET()) ==> t[0] == 71
    ensures HasPrefix(t, PUT()) ==> t[0] == 80
    ensures HasPrefix(t, LIST()) ==> t[0] == 76
    ensures HasPrefix(t, DELETE()) ==> t[0] == 68
  {
    if t[0] != 71 { OtherCommand(t, GET()); }
    if t[0] != 80 { OtherCommand(t, PUT()); }
    if t[0] != 76 { OtherCommand(t, LIST()); }
    if t[0] != 68 { OtherCommand(t, DELETE()); }
  }

  /** Only the parser of the command that is there matters. */
  lemma HeaderByCommand(s: Session, chunk: Text, opens: bool)
    requires s.phase == ReadingHeader && s.input + chunk != []
    ensures var t, s' := s.input + chunk, ContinueHeader(s, chunk, opens);
            var s1 := s.(input := t);
            if HasPrefix(t, LIST()) then
              s' == if TryParse(s1, LIST(), false).1 then Answer(s1, Listed) else Answer(s1, BadRequest)
            else if HasPrefix(t, GET()) then
              var (s2, ok) := TryParse(s1, GET(), true);
              s' == if ok then s2.(phase := SendingGet, responses := s2.responses + [Sent(s2.filename)]) else s2
            else if HasPrefix(t, PUT()) then
              var (s2, ok) := TryParse(s1, PUT(), true);
              s' == if ok then StartPut(s2, opens) else s2
            else if HasPrefix(t, DELETE()) then
              var (s2, ok) := TryParse(s1, DELETE(), true);
              s' == if ok then Answer(s2, Deleted(s2.filename)) else s2
            else s' == if Unknown(t) then Answer(s1, BadRequest) else s1
  {
    OneCommand(s.input + chunk);
  }

  /** LIST, GET and DELETE are answered, whatever follows their newline, and change nothing here. */
  lemma RequestsAnswered(s: Session, chunk: Text, name: Text, rest: Text, opens: bool)
    requires s == Create(s.files, s.directory).(input := s.input)
    requires forall i | 0 <= i < |name| :: name[i] != 0 && name[i] != 10
    ensures var t, s' := s.input + chunk, Feed(s, chunk, opens);
            && (t == [76, 73, 83, 84, 10] + rest ==> s' == s.(input := t, phase := Done, responses := [Listed]))
            && (t == [71, 69, 84, 32] + name + [10] + rest ==>
                  s' == s.(input := t, filename := name, phase := SendingGet, responses := [Sent(name)]))
            && (t == [68, 69, 76, 69, 84, 69, 32] + name + [10] + rest ==>
                  s' == s.(input := t, filename := name, phase := Done, responses := [Deleted(name)]))
  {
    var t := s.input + chunk;
    var s1 := s.(input := t);
    if t == [76, 73, 83, 84, 10] + rest {
      assert t[..4] == LIST();
    } else if t == [71, 69, 84, 32] + name + [10] + rest {
      assert GET() + [SPACE] == [71, 69, 84, 32];
      NamedRequest(s1, GET(), name, rest);
      OneCommand(t);
    } else if t == [68, 69, 76, 69, 84, 69, 32] + name + [10] + rest {
      assert DELETE() + [SPACE] == [68, 69, 76, 69, 84, 69, 32];
      NamedRequest(s1, DELETE(), name, rest);
      OneCommand(t);
    }
  }

  /** The server waits exactly while the command may still become one of the four; a request that is none of them
      is refused. */
  lemma OtherRequestsRefused(s: Session, chunk: Text, opens: bool) returns (name: Text, rest: Text)
    requires s == Create(s.files, s.directory).(input := s.input) && s.input + chunk != []
    ensures var t, s' := s.input + chunk, Feed(s, chunk, opens);
            if ((t[0] == 71 || t[0] == 80) && |t| < 3) || (t[0] == 76 && |t| < 4) || (t[0] == 68 && |t| < 6) then
              s' == s.(input := t)
            else
              || s' == s.(input := t, phase := Done, responses := [BadRequest])
              || (&& (forall i | 0 <= i < |name| :: name[i] != 0 && name[i] != 10)
                  && (|| t == [76, 73, 83, 84, 10] + rest || t == [71, 69, 84, 32] + name + [10] + rest
                      || t == [80, 85, 84, 32] + name + [10] + rest
                      || t == [68, 69, 76, 69, 84, 69, 32] + name + [10] + rest))
  {
    var t := s.input + chunk;
    var s1 := s.(input := t);
    OneCommand(t);
    HeaderByCommand(s, chunk, opens);
    name, rest := [], [];
    if HasPrefix(t, LIST()) {
      if TryParse(s1, LIST(), false).1 {
        rest := t[5..];
        assert t == t[..4] + [NEWLINE] + rest;
      }
    } else if HasPrefix(t, GET()) {
      name, rest := OnlyNamedRequests(s1, GET());
      assert GET() + [SPACE] == [71, 69, 84, 32];
    } else if HasPrefix(t, PUT()) {
      name, rest := OnlyNamedRequests(s1, PUT());
      assert PUT() + [SPACE] == [80, 85, 84, 32];
    } else if HasPrefix(t, DELETE()) {
      name, rest := OnlyNamedRequests(s1, DELETE());
      assert DELETE() + [SPACE] == [68, 69, 76, 69, 84, 69, 32];
    }
  }
}
