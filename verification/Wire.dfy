/**
  The fabric text protocol: space separated tokens on newline ended lines, the
  run request's header, and length-prefixed output frames. Streams are
  sequences of bytes, written here as characters.
 */
module Wire {
  import opened Sequences

  type Bytes = seq<char>

  // ---- lines ----

  datatype Line = Line(text: Bytes, rest: Bytes)

  /** Up to the first newline; none before the stream ends is an error. */
  function NextLine(s: Bytes): (r: Option<Line>)
    ensures r.Some? ==> |r.value.rest| < |s|
  {
    if s == [] then None
    else if s[0] == '\n' then Some(Line([], s[1..]))
    else
      var r := NextLine(s[1..]);
      if r.None? then None else Some(Line([s[0]] + r.value.text, r.value.rest))
  }

  /** Cuts every trailing carriage return and newline. */
  function TrimRight(s: Bytes): Bytes {
    if s != [] && (s[|s| - 1] == '\r' || s[|s| - 1] == '\n') then TrimRight(s[..|s| - 1]) else s
  }

  function Split(s: Bytes): (r: seq<Bytes>)
    ensures |r| > 0
  {
    if s == [] then [[]]
    else
      var r := Split(s[1..]);
      if s[0] == ' ' then [[]] + r else [[s[0]] + r[0]] + r[1..]
  }

  function Join(parts: seq<Bytes>, sep: Bytes): Bytes {
    if parts == [] then [] else if |parts| == 1 then parts[0] else parts[0] + sep + Join(parts[1..], sep)
  }

  function Tokens(line: Bytes): seq<Bytes> {
    var t := TrimRight(line);
    if t == [] then [] else Split(t)
  }

  datatype Read<T> = Read(value: T, rest: Bytes)

  /** `readLine`: one line's tokens; a blank line has none. */
  function ReadTokens(s: Bytes): (r: Option<Read<seq<Bytes>>>)
    ensures r.Some? ==> |r.value.rest| < |s|
  {
    var l := NextLine(s);
    if l.None? then None else Some(Read(Tokens(l.value.text), l.value.rest))
  }

  lemma {:induction false} NextLineReads(a: Bytes, tail: Bytes)
    requires '\n' !in a
    ensures NextLine(a + "\n" + tail) == Some(Line(a, tail))
  {
    if a != [] {
      assert (a + "\n" + tail)[1..] == a[1..] + "\n" + tail;
      NextLineReads(a[1..], tail);
      assert a == [a[0]] + a[1..];
    }
  }

  lemma {:induction false} JoinSplit(s: Bytes)
    ensures Join(Split(s), " ") == s
  {
    if s != [] {
      var r := Split(s[1..]);
      JoinSplit(s[1..]);
      if s[0] == ' ' {
        assert ([[]] + r)[1..] == r;
        assert Join([[]] + r, " ") == [] + " " + Join(r, " ");
      } else {
        var t := [[s[0]] + r[0]] + r[1..];
        if |r| > 1 {
          assert t[1..] == r[1..];
          assert Join(t, " ") == [s[0]] + (r[0] + " " + Join(r[1..], " "));
        }
      }
    }
  }

  lemma {:induction false} SplitPlain(s: Bytes)
    requires ' ' !in s
    ensures Split(s) == [s]
  {
    if s != [] {
      SplitPlain(s[1..]);
      assert s == [s[0]] + s[1..];
    }
  }

  /** A space-free first word is the first token; the rest is split as it stands. */
  lemma {:induction false} SplitWord(w: Bytes, s: Bytes)
    requires ' ' !in w
    ensures Split(w + " " + s) == [w] + Split(s)
  {
    if w != [] {
      assert (w + " " + s)[1..] == w[1..] + " " + s;
      SplitWord(w[1..], s);
      assert w == [w[0]] + w[1..];
      assert ([w[1..]] + Split(s))[1..] == Split(s);
    } else {
      assert (w + " " + s)[1..] == s;
    }
  }

  predicate EndsBare(s: Bytes) {
    s != [] ==> s[|s| - 1] != '\r' && s[|s| - 1] != '\n'
  }

  lemma {:induction false} TrimShortens(s: Bytes)
    ensures TrimRight(s) <= s && EndsBare(TrimRight(s))
    ensures TrimRight(s) == s <==> EndsBare(s)
  {
    if s != [] && (s[|s| - 1] == '\r' || s[|s| - 1] == '\n') {
      TrimShortens(s[..|s| - 1]);
    }
  }

  /** Safe as a line of its own: no newline inside, no carriage return at the end. */
  predicate LineSafe(a: Bytes) {
    '\n' !in a && EndsBare(a)
  }

  lemma {:induction false} FirstNewline(a: Bytes) returns (k: nat)
    requires '\n' in a
    ensures k < |a| && a[k] == '\n' && '\n' !in a[..k]
  {
    if a[0] == '\n' {
      k := 0;
    } else {
      assert '\n' in a[1..];
      k := FirstNewline(a[1..]);
      assert a[..k + 1] == [a[0]] + a[1..][..k];
      k := k + 1;
    }
  }

  /** A line comes back exactly when it is safe. */
  lemma LineSurvivesExactly(a: Bytes, tail: Bytes)
    ensures (ReadTokens(a + "\n" + tail).Some? && ReadTokens(a + "\n" + tail).value.rest == tail
             && Join(ReadTokens(a + "\n" + tail).value.value, " ") == a) <==> LineSafe(a)
  {
    if '\n' !in a {
      NextLineReads(a, tail);
      TrimShortens(a);
      var t := TrimRight(a);
      JoinSplit(t);
    } else {
      var k := FirstNewline(a);
      assert a + "\n" + tail == a[..k] + "\n" + (a[k + 1..] + "\n" + tail);
      NextLineReads(a[..k], a[k + 1..] + "\n" + tail);
      assert |a[k + 1..] + "\n" + tail| > |tail|;
    }
  }

  lemma ReadsSafeLine(a: Bytes, tail: Bytes)
    requires LineSafe(a)
    ensures ReadTokens(a + "\n" + tail) == Some(Read(if a == [] then [] else Split(a), tail))
  {
    NextLineReads(a, tail);
    TrimShortens(a);
  }

  // ---- the run request ----

  datatype Request = Request(id: Bytes, image: Bytes, env: seq<Bytes>, argv: seq<Bytes>)

  function EnvLines(env: seq<Bytes>): Bytes {
    if env == [] then [] else "ENV " + env[0] + "\n" + EnvLines(env[1..])
  }

  function ArgLines(argv: seq<Bytes>): Bytes {
    if argv == [] then [] else argv[0] + "\n" + ArgLines(argv[1..])
  }

  /** What the client sends after RUN. */
  function RequestBytes(q: Request): Bytes {
    q.id + "\n" + q.image + "\n" + EnvLines(q.env) + "CMD" + "\n" + ArgLines(q.argv) + "\n"
  }

  function ParseEnv(s: Bytes, env: seq<Bytes>): (r: Option<Read<seq<Bytes>>>)
    ensures r.Some? ==> |r.value.rest| < |s|
    decreases |s|
  {
    var t := ReadTokens(s);
    if t.None? || t.value.value == [] then None
    else if t.value.value[0] == "ENV" then ParseEnv(t.value.rest, env + [Join(t.value.value[1..], " ")])
    else if t.value.value[0] == "CMD" then Some(Read(env, t.value.rest))
    else None
  }

  function ParseArgv(s: Bytes, argv: seq<Bytes>): Option<Read<seq<Bytes>>>
    decreases |s|
  {
    var t := ReadTokens(s);
    if t.None? then None
    else if t.value.value == [] then Some(Read(argv, t.value.rest))
    else ParseArgv(t.value.rest, argv + [Join(t.value.value, " ")])
  }

  /** The daemon's view of a request, and the stream position after it. */
  function ParseRequest(s: Bytes): Option<Read<Request>> {
    var a := ReadTokens(s);
    if a.None? then None else
    var b := ReadTokens(a.value.rest);
    if b.None? then None else
    var id, image := Join(a.value.value, ""), Join(b.value.value, "");
    if id == "" || image == "" then None else
    var e := ParseEnv(b.value.rest, []);
    if e.None? then None else
    var v := ParseArgv(e.value.rest, []);
    if v.None? then None else Some(Read(Request(id, image, e.value.value, v.value.value), v.value.rest))
  }

  predicate WordSafe(w: Bytes) {
    w != [] && ' ' !in w && LineSafe(w)
  }

  ghost predicate Sendable(q: Request) {
    && WordSafe(q.id) && WordSafe(q.image)
    && (forall e <- q.env :: LineSafe(e))
    && (forall a <- q.argv :: a != [] && LineSafe(a))
  }

  lemma Nest<T>(a: seq<T>, b: seq<T>, c: seq<T>)
    ensures a + b + c == a + (b + c)
  {
  }

  /** What follows an ended line. */
  lemma AfterLine(a: Bytes, more: Bytes, tail: Bytes)
    ensures a + "\n" + more + tail == a + "\n" + (more + tail)
  {
  }

  lemma EnvLineSafe(e: Bytes)
    requires LineSafe(e)
    ensures LineSafe("ENV" + " " + e)
  {
    var line := "ENV" + " " + e;
    assert "ENV" + " " == ['E', 'N', 'V', ' '];
    assert e != [] ==> line[|line| - 1] == e[|e| - 1];
  }

  lemma EnvShape(env: seq<Bytes>, tail: Bytes)
    requires env != []
    ensures EnvLines(env) + "CMD" + "\n" + tail
         == "ENV" + " " + env[0] + "\n" + (EnvLines(env[1..]) + "CMD" + "\n" + tail)
  {
    var line, more := "ENV" + " " + env[0], EnvLines(env[1..]);
    assert EnvLines(env) == line + "\n" + more;
    AfterLine(line, more, "CMD");
    AfterLine(line, more + "CMD", "\n");
    AfterLine(line, more + "CMD" + "\n", tail);
  }

  lemma EnvStep(e: Bytes, more: Bytes, done: seq<Bytes>)
    requires LineSafe(e)
    ensures ParseEnv("ENV" + " " + e + "\n" + more, done) == ParseEnv(more, done + [e])
  {
    EnvLineSafe(e);
    ReadsSafeLine("ENV" + " " + e, more);
    SplitWord("ENV", e);
    assert (["ENV"] + Split(e))[1..] == Split(e);
    JoinSplit(e);
  }

  lemma ReadsWord(w: Bytes, tail: Bytes)
    requires WordSafe(w)
    ensures ReadTokens(w + "\n" + tail) == Some(Read([w], tail))
  {
    ReadsSafeLine(w, tail);
    SplitPlain(w);
  }

  lemma EnvEnds(done: seq<Bytes>, tail: Bytes)
    ensures ParseEnv("CMD" + "\n" + tail, done) == Some(Read(done, tail))
  {
    ReadsWord("CMD", tail);
  }

  lemma {:induction false} EnvRoundTrip(todo: seq<Bytes>, done: seq<Bytes>, tail: Bytes)
    requires forall e <- todo :: LineSafe(e)
    ensures ParseEnv(EnvLines(todo) + "CMD" + "\n" + tail, done) == Some(Read(done + todo, tail))
    decreases |todo|
  {
    if todo == [] {
      EnvEnds(done, tail);
      assert [] + "CMD" == "CMD";
      assert done + todo == done;
    } else {
      assert todo[0] in todo && forall e <- todo[1..] :: e in todo;
      EnvShape(todo, tail);
      EnvStep(todo[0], EnvLines(todo[1..]) + "CMD" + "\n" + tail, done);
      EnvRoundTrip(todo[1..], done + [todo[0]], tail);
      HeadMoves(done, todo, 0);
    }
  }

  lemma ArgvStep(a: Bytes, more: Bytes, done: seq<Bytes>)
    requires a != [] && LineSafe(a)
    ensures ParseArgv(a + "\n" + more, done) == ParseArgv(more, done + [a])
  {
    ReadsSafeLine(a, more);
    JoinSplit(a);
  }

  lemma ArgvEnds(done: seq<Bytes>, tail: Bytes)
    ensures ParseArgv([] + "\n" + tail, done) == Some(Read(done, tail))
  {
    ReadsSafeLine([], tail);
  }

  lemma {:induction false} ArgvRoundTrip(todo: seq<Bytes>, done: seq<Bytes>, tail: Bytes)
    requires forall a <- todo :: a != [] && LineSafe(a)
    ensures ParseArgv(ArgLines(todo) + "\n" + tail, done) == Some(Read(done + todo, tail))
    decreases |todo|
  {
    if todo == [] {
      ArgvEnds(done, tail);
      assert done + todo == done;
    } else {
      var more := ArgLines(todo[1..]);
      assert todo[0] in todo && forall a <- todo[1..] :: a in todo;
      AfterLine(todo[0], more, "\n");
      AfterLine(todo[0], more + "\n", tail);
      ArgvStep(todo[0], more + "\n" + tail, done);
      ArgvRoundTrip(todo[1..], done + [todo[0]], tail);
      HeadMoves(done, todo, 0);
    }
  }

  lemma RequestShape(q: Request, tail: Bytes)
    ensures RequestBytes(q) + tail
         == q.id + "\n" + (q.image + "\n" + (EnvLines(q.env) + "CMD" + "\n" + (ArgLines(q.argv) + "\n" + tail)))
  {
    var e, a := EnvLines(q.env), ArgLines(q.argv);
    var top := q.id + "\n" + q.image + "\n";
    var head := e + "CMD" + "\n";
    calc {
      RequestBytes(q) + tail;
      top + e + "CMD" + "\n" + a + "\n" + tail;
      { Nest(top, e, "CMD"); Nest(top, e + "CMD", "\n"); }
      top + head + a + "\n" + tail;
      { Nest(top + head, a, "\n"); Nest(top + head, a + "\n", tail); Nest(top, head, a + "\n" + tail); }
      top + (head + (a + "\n" + tail));
      { AfterLine(q.id, q.image, "\n"); AfterLine(q.id, q.image + "\n", head + (a + "\n" + tail)); }
      q.id + "\n" + (q.image + "\n" + (head + (a + "\n" + tail)));
    }
  }

  /** A request is parsed part by part. */
  lemma ParsesAs(s: Bytes, id: Bytes, s1: Bytes, image: Bytes, s2: Bytes, env: seq<Bytes>, s3: Bytes, argv: seq<Bytes>, s4: Bytes)
    requires ReadTokens(s) == Some(Read([id], s1)) && id != []
    requires ReadTokens(s1) == Some(Read([image], s2)) && image != []
    requires ParseEnv(s2, []) == Some(Read(env, s3))
    requires ParseArgv(s3, []) == Some(Read(argv, s4))
    ensures ParseRequest(s) == Some(Read(Request(id, image, env, argv), s4))
  {
  }

  /** The daemon recovers exactly what the client wrote, and stops at the first stream byte. */
  lemma RequestRoundTrip(q: Request, tail: Bytes)
    requires Sendable(q)
    ensures ParseRequest(RequestBytes(q) + tail) == Some(Read(q, tail))
  {
    var args := ArgLines(q.argv) + "\n" + tail;
    var envs := EnvLines(q.env) + "CMD" + "\n" + args;
    RequestShape(q, tail);
    ReadsWord(q.id, q.image + "\n" + envs);
    ReadsWord(q.image, envs);
    EnvRoundTrip(q.env, [], args);
    ArgvRoundTrip(q.argv, [], tail);
    assert [] + q.env == q.env && [] + q.argv == q.argv;
    ParsesAs(RequestBytes(q) + tail, q.id, q.image + "\n" + envs, q.image, envs, q.env, args, q.argv, tail);
  }

  lemma {:induction false} NoLine(s: Bytes)
    requires '\n' !in s
    ensures NextLine(s).None?
  {
    if s != [] {
      NoLine(s[1..]);
    }
  }

  /** The header ends at a blank line, an unknown word, or the end of the stream with an error. */
  lemma HeaderRefused(line: Bytes, tail: Bytes, done: seq<Bytes>)
    requires '\n' !in line
    ensures Tokens(line) == [] || Tokens(line)[0] !in {"ENV", "CMD"} ==> ParseEnv(line + "\n" + tail, done).None?
    ensures ParseEnv(line, done).None? && ParseArgv(line, done).None? && ParseRequest(line).None?
  {
    NextLineReads(line, tail);
    NoLine(line);
  }

  /** A request without an identity, or without an image, is refused whatever follows. */
  lemma NamelessRefused(word: Bytes, tail: Bytes)
    requires WordSafe(word)
    ensures ParseRequest([] + "\n" + tail).None?
    ensures ParseRequest(word + "\n" + ([] + "\n" + tail)).None?
  {
    ReadsSafeLine([], tail);
    ReadsWord(word, [] + "\n" + tail);
  }

  // ---- decimal numbers ----

  function Digit(n: nat): char
    requires n < 10
  {
    "0123456789"[n]
  }

  function DigitValue(c: char): Option<nat> {
    if '0' <= c <= '9' then Some((c as int) - ('0' as int)) else None
  }

  function Digits(n: nat): (r: Bytes)
    ensures |r| > 0
  {
    if n < 10 then [Digit(n)] else Digits(n / 10) + [Digit(n % 10)]
  }

  function ParseDigits(s: Bytes): Option<nat> {
    if s == [] then None
    else
      var d := DigitValue(s[|s| - 1]);
      if d.None? then None
      else if |s| == 1 then d
      else
        var high := ParseDigits(s[..|s| - 1]);
        if high.None? then None else Some(10 * high.value + d.value)
  }

  function Itoa(i: int): Bytes {
    if i < 0 then "-" + Digits(-i) else Digits(i)
  }

  /** A decimal number with an optional sign, however long. */
  function Number(s: Bytes): Option<int> {
    if s != [] && (s[0] == '-' || s[0] == '+') then
      var n := ParseDigits(s[1..]);
      if n.None? then None else Some(if s[0] == '-' then 0 - n.value else n.value as int)
    else
      var n := ParseDigits(s);
      if n.None? then None else Some(n.value)
  }

  const MAX_INT := 0x7FFF_FFFF_FFFF_FFFF
  const MIN_INT := -0x8000_0000_0000_0000

  /** A number outside 64 bits is an error. */
  function Atoi(s: Bytes): Option<int> {
    var n := Number(s);
    if n.Some? && MIN_INT <= n.value <= MAX_INT then n else None
  }

  predicate IsDigit(c: char) {
    '0' <= c <= '9'
  }

  lemma {:induction false} DigitsParse(n: nat)
    ensures ParseDigits(Digits(n)) == Some(n)
    ensures forall c <- Digits(n) :: IsDigit(c)
  {
    if n >= 10 {
      DigitsParse(n / 10);
      assert Digits(n)[..|Digits(n)| - 1] == Digits(n / 10);
    }
  }

  lemma DigitsSafe(n: nat)
    ensures WordSafe(Digits(n)) && WordSafe("-" + Digits(n))
    ensures IsDigit(Digits(n)[0])
  {
    DigitsParse(n);
    var d := Digits(n);
    assert IsDigit(d[0]) && IsDigit(d[|d| - 1]);
    assert ("-" + d)[|d|] == d[|d| - 1];
  }

  lemma AtoiItoa(i: int)
    ensures Number(Itoa(i)) == Some(i)
    ensures Atoi(Itoa(i)) == if MIN_INT <= i <= MAX_INT then Some(i) else None
    ensures WordSafe(Itoa(i))
  {
    var n: nat := if i < 0 then -i else i;
    DigitsParse(n);
    DigitsSafe(n);
    assert ("-" + Digits(n))[1..] == Digits(n);
  }

  // ---- output frames ----

  datatype Event =
    | Out(fd: Bytes, payload: Bytes)
    | Control(tag: Bytes, text: Bytes)

  function FrameBytes(fd: Bytes, payload: Bytes): Bytes {
    "OUT" + " " + fd + " " + Itoa(|payload|) + "\n" + payload
  }

  function ExitBytes(code: int): Bytes {
    "EXIT" + " " + Itoa(code) + "\n"
  }

  /** The longest payload the reading program can allocate. */
  type Limit = n: nat | n <= MAX_INT witness 0

  /** Reading an event: the event, an error, or a crash of the reading program. */
  datatype Decoded = Decoded(event: Event, rest: Bytes) | Broken | Crash

  /**
    `readEvent`: a frame with its payload, or a control line. The payload is
    allocated before it is read, which crashes on a negative length and on one
    above the limit.
   */
  function DecodeEvent(limit: Limit, s: Bytes): Decoded {
    var t := ReadTokens(s);
    if t.None? || t.value.value == [] then Broken
    else
      var tok, rest := t.value.value, t.value.rest;
      if tok[0] == "OUT" then
        if |tok| < 3 then Broken
        else
          var n := Atoi(tok[2]);
          if n.None? then Broken
          else if n.value < 0 || n.value > limit then Crash
          else if n.value > |rest| then Broken
          else Decoded(Out(tok[1], rest[..n.value]), rest[n.value..])
      else Decoded(Control(tok[0], Join(tok[1..], " ")), rest)
  }

  /** A 64-bit number that is no length the program can allocate. */
  predicate Unallocatable(limit: Limit, n: int) {
    MIN_INT <= n < 0 || limit < n <= MAX_INT
  }

  /** The reader crashes exactly on an OUT line whose third word is a number it cannot allocate. */
  lemma CrashExactly(limit: Limit, line: Bytes, tail: Bytes)
    requires '\n' !in line
    ensures DecodeEvent(limit, line + "\n" + tail).Crash? <==>
              var tok := Tokens(line);
              |tok| >= 3 && tok[0] == "OUT" && Number(tok[2]).Some? && Unallocatable(limit, Number(tok[2]).value)
  {
    NextLineReads(line, tail);
  }

  lemma SpacedSafe(a: Bytes, b: Bytes)
    requires '\n' !in a && b != [] && LineSafe(b)
    ensures LineSafe(a + " " + b)
  {
    var line := a + " " + b;
    assert line[|line| - 1] == b[|b| - 1];
  }

  lemma FrameLine(fd: Bytes, n: Bytes)
    requires WordSafe(fd) && WordSafe(n)
    ensures LineSafe("OUT" + " " + (fd + " " + n))
    ensures Split("OUT" + " " + (fd + " " + n)) == ["OUT", fd, n]
  {
    SplitWord("OUT", fd + " " + n);
    SplitWord(fd, n);
    SplitPlain(n);
    assert ["OUT"] + ([fd] + [n]) == ["OUT", fd, n];
    SpacedSafe(fd, n);
    SpacedSafe("OUT", fd + " " + n);
  }

  /** What the reader makes of a frame that announces `k` bytes, for every integer `k`. */
  lemma LengthExactly(limit: Limit, fd: Bytes, k: int, tail: Bytes)
    requires WordSafe(fd)
    ensures DecodeEvent(limit, "OUT" + " " + (fd + " " + Itoa(k)) + "\n" + tail)
         == if Unallocatable(limit, k) then Crash
            else if 0 <= k <= limit && k <= |tail| then Decoded(Out(fd, tail[..k]), tail[k..])
            else Broken
  {
    AtoiItoa(k);
    FrameLine(fd, Itoa(k));
    ReadsSafeLine("OUT" + " " + (fd + " " + Itoa(k)), tail);
  }

  lemma FrameShape(fd: Bytes, payload: Bytes, tail: Bytes)
    ensures FrameBytes(fd, payload) + tail == "OUT" + " " + (fd + " " + Itoa(|payload|)) + "\n" + (payload + tail)
  {
  }

  /** A frame is read as it was written exactly if the reader can allocate its payload. */
  lemma FrameRoundTrip(limit: Limit, fd: Bytes, payload: Bytes, tail: Bytes)
    requires WordSafe(fd)
    ensures |payload| <= limit ==> DecodeEvent(limit, FrameBytes(fd, payload) + tail) == Decoded(Out(fd, payload), tail)
    ensures |payload| > limit ==> !DecodeEvent(limit, FrameBytes(fd, payload) + tail).Decoded?
  {
    FrameShape(fd, payload, tail);
    LengthExactly(limit, fd, |payload|, payload + tail);
    assert (payload + tail)[..|payload|] == payload && (payload + tail)[|payload|..] == tail;
  }

  /** Any other line is a control event: its first word and the rest of the line. */
  lemma ControlRoundTrip(limit: Limit, tag: Bytes, text: Bytes, tail: Bytes)
    requires WordSafe(tag) && tag != "OUT" && text != [] && LineSafe(text)
    ensures DecodeEvent(limit, tag + " " + text + "\n" + tail) == Decoded(Control(tag, text), tail)
  {
    SpacedSafe(tag, text);
    ReadsSafeLine(tag + " " + text, tail);
    SplitWord(tag, text);
    assert ([tag] + Split(text))[1..] == Split(text);
    JoinSplit(text);
  }

  lemma BlankBreaks(limit: Limit, tail: Bytes)
    ensures DecodeEvent(limit, [] + "\n" + tail) == Broken
  {
    ReadsSafeLine([], tail);
  }

  lemma ExitRoundTrip(limit: Limit, code: int, tail: Bytes)
    ensures DecodeEvent(limit, ExitBytes(code) + tail) == Decoded(Control("EXIT", Itoa(code)), tail)
  {
    AtoiItoa(code);
    ControlRoundTrip(limit, "EXIT", Itoa(code), tail);
  }

  type Frame = e: Event | e.Out? witness Out([], [])

  /** A job's output stream: frames in order, then the exit line. */
  function StreamBytes(frames: seq<Frame>, code: int): Bytes {
    if frames == [] then ExitBytes(code)
    else FrameBytes(frames[0].fd, frames[0].payload) + StreamBytes(frames[1..], code)
  }

  function Prepend(e: Event, r: Option<Read<seq<Event>>>): Option<Read<seq<Event>>> {
    if r.None? then None else Some(Read([e] + r.value.value, r.value.rest))
  }

  function DecodeMany(limit: Limit, s: Bytes, n: nat): Option<Read<seq<Event>>>
    decreases n
  {
    if n == 0 then Some(Read([], s))
    else
      var e := DecodeEvent(limit, s);
      if e.Decoded? then Prepend(e.event, DecodeMany(limit, e.rest, n - 1)) else None
  }

  lemma DecodeStep(limit: Limit, s: Bytes, e: Event, more: Bytes, n: nat)
    requires DecodeEvent(limit, s) == Decoded(e, more)
    ensures DecodeMany(limit, s, n + 1) == Prepend(e, DecodeMany(limit, more, n))
  {
  }

  lemma ExitDecodes(limit: Limit, code: int, tail: Bytes)
    ensures DecodeMany(limit, ExitBytes(code) + tail, 1) == Some(Read([Control("EXIT", Itoa(code))], tail))
  {
    var exit := Control("EXIT", Itoa(code));
    ExitRoundTrip(limit, code, tail);
    DecodeStep(limit, ExitBytes(code) + tail, exit, tail, 0);
    assert [exit] + [] == [exit];
  }

  lemma FrameDecodes(limit: Limit, f: Frame, more: Bytes, n: nat)
    requires WordSafe(f.fd)
    ensures DecodeMany(limit, FrameBytes(f.fd, f.payload) + more, n + 1)
         == if |f.payload| <= limit then Prepend(f, DecodeMany(limit, more, n)) else None
  {
    FrameRoundTrip(limit, f.fd, f.payload, more);
    if |f.payload| <= limit {
      DecodeStep(limit, FrameBytes(f.fd, f.payload) + more, f, more, n);
    }
  }

  predicate AllFit(limit: Limit, frames: seq<Frame>) {
    forall f <- frames :: |f.payload| <= limit
  }

  /** What a stream decodes to: its events and the exit, if the reader can allocate every payload. */
  function Events(limit: Limit, frames: seq<Frame>, exit: Event, tail: Bytes): Option<Read<seq<Event>>> {
    if AllFit(limit, frames) then Some(Read(frames + [exit], tail)) else None
  }

  lemma EventsFirst(limit: Limit, frames: seq<Frame>, exit: Event, tail: Bytes)
    requires frames != []
    ensures Events(limit, frames, exit, tail)
         == if |frames[0].payload| <= limit then Prepend(frames[0], Events(limit, frames[1..], exit, tail)) else None
  {
    assert frames == [frames[0]] + frames[1..];
    assert [frames[0]] + (frames[1..] + [exit]) == frames + [exit];
  }

  lemma NoFrames(limit: Limit, code: int, tail: Bytes)
    ensures DecodeMany(limit, StreamBytes([], code) + tail, 1) == Events(limit, [], Control("EXIT", Itoa(code)), tail)
  {
    ExitDecodes(limit, code, tail);
    assert [] + [Control("EXIT", Itoa(code))] == [Control("EXIT", Itoa(code))];
  }

  lemma OneFrame(limit: Limit, frames: seq<Frame>, code: int, tail: Bytes)
    requires frames != [] && WordSafe(frames[0].fd)
    requires DecodeMany(limit, StreamBytes(frames[1..], code) + tail, |frames|)
          == Events(limit, frames[1..], Control("EXIT", Itoa(code)), tail)
    ensures DecodeMany(limit, StreamBytes(frames, code) + tail, |frames| + 1)
         == Events(limit, frames, Control("EXIT", Itoa(code)), tail)
  {
    var f, rest := frames[0], StreamBytes(frames[1..], code);
    Nest(FrameBytes(f.fd, f.payload), rest, tail);
    FrameDecodes(limit, f, rest + tail, |frames|);
    EventsFirst(limit, frames, Control("EXIT", Itoa(code)), tail);
  }

  /**
    Any frames, with any payload bytes, followed by the exit line, decode to
    the same events, if and only if the reader can allocate every payload.
   */
  lemma {:induction false} StreamRoundTrip(limit: Limit, frames: seq<Frame>, code: int, tail: Bytes)
    requires forall f <- frames :: WordSafe(f.fd)
    ensures DecodeMany(limit, StreamBytes(frames, code) + tail, |frames| + 1)
         == Events(limit, frames, Control("EXIT", Itoa(code)), tail)
    decreases |frames|
  {
    if frames == [] {
      NoFrames(limit, code, tail);
    } else {
      StreamRoundTrip(limit, frames[1..], code, tail);
      OneFrame(limit, frames, code, tail);
    }
  }

  // ---- the client's side of a running job ----

  datatype Message = Data(payload: Bytes) | Signal(name: Bytes)

  function MessageBytes(m: Message): Bytes {
    match m
    case Data(p) => "DATA" + " " + Itoa(|p|) + "\n" + p
    case Signal(n) => "SIGNAL" + " " + n + "\n"
  }

  /** Stdin frames and signals, in any order. */
  function MessagesBytes(ms: seq<Message>): Bytes {
    if ms == [] then [] else MessageBytes(ms[0]) + MessagesBytes(ms[1..])
  }

  function SessionBytes(ms: seq<Message>): Bytes {
    MessagesBytes(ms) + ("EOF" + "\n")
  }

  /** How the pump ends: input closed at EOF, the job killed, or the daemon crashed. */
  datatype End = Closed | Killed | Crashed

  /** What the daemon made of the session: the container's input, the signals sent, and how it ended. */
  datatype Pumped = Pumped(stdin: Bytes, signals: seq<Bytes>, end: End, rest: Bytes)

  /**
    The stdin pump. A broken stream or frame kills the job; a frame without a
    length, or with one that cannot be allocated, crashes the daemon.
   */
  function Pump(limit: Limit, s: Bytes, stdin: Bytes, signals: seq<Bytes>): Pumped
    decreases |s|
  {
    var t := ReadTokens(s);
    if t.None? then Pumped(stdin, signals, Killed, s)
    else
      var tok, rest := t.value.value, t.value.rest;
      if tok == [] then Pump(limit, rest, stdin, signals)
      else if tok[0] == "DATA" then
        if |tok| < 2 then Pumped(stdin, signals, Crashed, rest)
        else
          var n := Atoi(tok[1]);
          if n.None? || n.value < 0 then Pumped(stdin, signals, Killed, rest)
          else if n.value > limit then Pumped(stdin, signals, Crashed, rest)
          else if n.value > |rest| then Pumped(stdin, signals, Killed, rest)
          else Pump(limit, rest[n.value..], stdin + rest[..n.value], signals)
      else if tok[0] == "EOF" then Pumped(stdin, signals, Closed, rest)
      else Pump(limit, rest, stdin, if tok[0] == "SIGNAL" && |tok| > 1 then signals + [tok[1]] else signals)
  }

  function Input(m: Message): Bytes {
    if m.Data? then m.payload else []
  }

  function Names(m: Message): seq<Bytes> {
    if m.Signal? then [m.name] else []
  }

  function Payloads(ms: seq<Message>): Bytes {
    if ms == [] then [] else Input(ms[0]) + Payloads(ms[1..])
  }

  function Signals(ms: seq<Message>): seq<Bytes> {
    if ms == [] then [] else Names(ms[0]) + Signals(ms[1..])
  }

  lemma WordLine(tag: Bytes, w: Bytes, tail: Bytes)
    requires WordSafe(tag) && WordSafe(w)
    ensures ReadTokens(tag + " " + w + "\n" + tail) == Some(Read([tag, w], tail))
  {
    var line := tag + " " + w;
    assert line[|line| - 1] == w[|w| - 1];
    ReadsSafeLine(line, tail);
    SplitWord(tag, w);
    SplitPlain(w);
    assert [tag] + [w] == [tag, w];
  }

  /** What the pump makes of a frame that announces `k` bytes, for every integer `k`. */
  lemma DataExactly(limit: Limit, k: int, tail: Bytes, stdin: Bytes, signals: seq<Bytes>)
    ensures Pump(limit, "DATA" + " " + Itoa(k) + "\n" + tail, stdin, signals)
         == if 0 <= k <= limit && k <= |tail| then Pump(limit, tail[k..], stdin + tail[..k], signals)
            else Pumped(stdin, signals, if limit < k <= MAX_INT then Crashed else Killed, tail)
  {
    AtoiItoa(k);
    WordLine("DATA", Itoa(k), tail);
  }

  lemma PumpData(limit: Limit, p: Bytes, stdin: Bytes, signals: seq<Bytes>, more: Bytes)
    ensures |p| <= limit ==> Pump(limit, MessageBytes(Data(p)) + more, stdin, signals) == Pump(limit, more, stdin + p, signals)
    ensures |p| > limit ==> Pump(limit, MessageBytes(Data(p)) + more, stdin, signals).end != Closed
  {
    AfterLine("DATA" + " " + Itoa(|p|), p, more);
    DataExactly(limit, |p|, p + more, stdin, signals);
    assert (p + more)[..|p|] == p && (p + more)[|p|..] == more;
  }

  lemma PumpSignal(limit: Limit, n: Bytes, stdin: Bytes, signals: seq<Bytes>, more: Bytes)
    requires WordSafe(n)
    ensures Pump(limit, MessageBytes(Signal(n)) + more, stdin, signals) == Pump(limit, more, stdin, signals + [n])
  {
    WordLine("SIGNAL", n, more);
  }

  lemma PumpEnds(limit: Limit, stdin: Bytes, signals: seq<Bytes>, tail: Bytes)
    ensures Pump(limit, "EOF" + "\n" + tail, stdin, signals) == Pumped(stdin, signals, Closed, tail)
  {
    ReadsWord("EOF", tail);
  }

  lemma PumpNext(limit: Limit, m: Message, stdin: Bytes, signals: seq<Bytes>, more: Bytes)
    requires m.Signal? ==> WordSafe(m.name)
    ensures |Input(m)| <= limit ==>
              Pump(limit, MessageBytes(m) + more, stdin, signals) == Pump(limit, more, stdin + Input(m), signals + Names(m))
    ensures |Input(m)| > limit ==> Pump(limit, MessageBytes(m) + more, stdin, signals).end != Closed
  {
    if m.Data? {
      PumpData(limit, m.payload, stdin, signals, more);
      assert signals + [] == signals;
    } else {
      PumpSignal(limit, m.name, stdin, signals, more);
      assert stdin + [] == stdin;
    }
  }

  lemma NoMessages(stdin: Bytes, signals: seq<Bytes>, more: Bytes)
    ensures MessagesBytes([]) + more == more && stdin + Payloads([]) == stdin && signals + Signals([]) == signals
  {
  }

  predicate AllTaken(limit: Limit, ms: seq<Message>) {
    forall m <- ms :: |Input(m)| <= limit
  }

  lemma TakenFirst(limit: Limit, ms: seq<Message>)
    requires ms != []
    ensures AllTaken(limit, ms) <==> |Input(ms[0])| <= limit && AllTaken(limit, ms[1..])
  {
    assert ms == [ms[0]] + ms[1..];
  }

  lemma {:induction false} PumpMessages(limit: Limit, ms: seq<Message>, stdin: Bytes, signals: seq<Bytes>, more: Bytes)
    requires forall m <- ms :: m.Signal? ==> WordSafe(m.name)
    ensures AllTaken(limit, ms) ==>
              Pump(limit, MessagesBytes(ms) + more, stdin, signals) == Pump(limit, more, stdin + Payloads(ms), signals + Signals(ms))
    ensures !AllTaken(limit, ms) ==> Pump(limit, MessagesBytes(ms) + more, stdin, signals).end != Closed
    decreases |ms|
  {
    if ms == [] {
      NoMessages(stdin, signals, more);
    } else {
      var m, rest := ms[0], ms[1..];
      assert m in ms && forall k <- rest :: k in ms;
      TakenFirst(limit, ms);
      Nest(MessageBytes(m), MessagesBytes(rest), more);
      PumpNext(limit, m, stdin, signals, MessagesBytes(rest) + more);
      PumpMessages(limit, rest, stdin + Input(m), signals + Names(m), more);
      Nest(stdin, Input(m), Payloads(rest));
      Nest(signals, Names(m), Signals(rest));
    }
  }

  /**
    The container receives exactly the bytes sent, however they were framed,
    and the signals in order, up to the end of input: if and only if the daemon
    can allocate every frame.
   */
  lemma SessionRoundTrip(limit: Limit, ms: seq<Message>, tail: Bytes)
    requires forall m <- ms :: m.Signal? ==> WordSafe(m.name)
    ensures AllTaken(limit, ms) ==>
              Pump(limit, SessionBytes(ms) + tail, [], []) == Pumped(Payloads(ms), Signals(ms), Closed, tail)
    ensures !AllTaken(limit, ms) ==> Pump(limit, SessionBytes(ms) + tail, [], []).end != Closed
  {
    Nest(MessagesBytes(ms), "EOF" + "\n", tail);
    PumpMessages(limit, ms, [], [], "EOF" + "\n" + tail);
    assert [] + Payloads(ms) == Payloads(ms) && [] + Signals(ms) == Signals(ms);
    PumpEnds(limit, Payloads(ms), Signals(ms), tail);
  }

  /** A frame header without a length, or with a length above the limit. */
  predicate CrashingHeader(limit: Limit, tok: seq<Bytes>) {
    && tok != [] && tok[0] == "DATA"
    && (|tok| == 1 || (Number(tok[1]).Some? && limit < Number(tok[1]).value <= MAX_INT))
  }

  lemma LastLine(limit: Limit, line: Bytes, stdin: Bytes, signals: seq<Bytes>)
    requires '\n' !in line
    ensures Pump(limit, line + "\n", stdin, signals).end == Crashed <==> CrashingHeader(limit, Tokens(line))
  {
    NextLineReads(line, []);
    assert line + "\n" + [] == line + "\n";
    assert forall x, y :: Pump(limit, [], x, y) == Pumped(x, y, Killed, []);
  }

  /** After any messages, the next line crashes the daemon exactly if it is a frame header of that kind. */
  lemma PumpCrashesExactly(limit: Limit, ms: seq<Message>, line: Bytes)
    requires forall m <- ms :: m.Signal? ==> WordSafe(m.name)
    requires AllTaken(limit, ms) && '\n' !in line
    ensures Pump(limit, MessagesBytes(ms) + (line + "\n"), [], []).end == Crashed <==> CrashingHeader(limit, Tokens(line))
  {
    PumpMessages(limit, ms, [], [], line + "\n");
    LastLine(limit, line, [] + Payloads(ms), [] + Signals(ms));
  }

  /** A blank line, an unknown word and a signal without a name are passed over. */
  lemma PumpIgnores(limit: Limit, line: Bytes, stdin: Bytes, signals: seq<Bytes>, more: Bytes)
    requires '\n' !in line
    requires var tok := Tokens(line); tok == [] || tok[0] !in {"DATA", "EOF", "SIGNAL"} || tok == ["SIGNAL"]
    ensures Pump(limit, line + "\n" + more, stdin, signals) == Pump(limit, more, stdin, signals)
  {
    NextLineReads(line, more);
  }

  // ---- the bytes themselves ----

  /** A request as it stands on the wire. */
  lemma RequestOnWire()
    ensures RequestBytes(Request("j", "i", ["A=b c"], ["ls", "-l"])) == "j\ni\nENV A=b c\nCMD\nls\n-l\n\n"
  {
    assert ["A=b c"][1..] == [] && ["ls", "-l"][1..] == ["-l"] && ["-l"][1..] == [];
    var env, argv := EnvLines(["A=b c"]), ArgLines(["ls", "-l"]);
    assert env == "ENV A=b c\n";
    assert ArgLines(["-l"]) == "-l\n";
    assert argv == "ls\n-l\n";
  }

  /** An output frame and an exit line as they stand on the wire. */
  lemma FrameOnWire()
    ensures FrameBytes("1", "hi\n") == "OUT 1 3\nhi\n"
    ensures ExitBytes(-12) == "EXIT -12\n"
  {
    assert Itoa(3) == "3";
    assert Digits(12) == "12";
    assert Itoa(-12) == "-12";
  }

  /** An input frame and a signal as they stand on the wire. */
  lemma MessageOnWire()
    ensures MessageBytes(Data("abc")) == "DATA 3\nabc"
    ensures MessageBytes(Signal("TERM")) == "SIGNAL TERM\n"
    ensures SessionBytes([]) == "EOF\n"
  {
    assert Itoa(3) == "3";
  }

  // ---- the connection's two ends ----

  lemma JoinTwo(a: Bytes, b: Bytes)
    ensures Join([a, b], " ") == a + " " + b
  {
    assert [a, b][1..] == [b];
  }

  class Writer {
    var sent: Bytes

    constructor ()
      ensures sent == []
    {
      sent := [];
    }

    method WriteLine(parts: seq<Bytes>)
      modifies this
      ensures sent == old(sent) + Join(parts, " ") + "\n"
    {
      sent := sent + Join(parts, " ") + "\n";
    }

    method WriteEnv(env: seq<Bytes>)
      modifies this
      ensures sent == old(sent) + EnvLines(env)
    {
      for i := 0 to |env|
        invariant sent + EnvLines(env[i..]) == old(sent) + EnvLines(env)
      {
        assert env[i..][1..] == env[i + 1..];
        WriteLine(["ENV", env[i]]);
        JoinTwo("ENV", env[i]);
        assert "ENV " + env[i] + "\n" + EnvLines(env[i + 1..]) == EnvLines(env[i..]);
      }
    }

    method WriteArgv(argv: seq<Bytes>)
      modifies this
      ensures sent == old(sent) + ArgLines(argv)
    {
      for i := 0 to |argv|
        invariant sent + ArgLines(argv[i..]) == old(sent) + ArgLines(argv)
      {
        assert argv[i..][1..] == argv[i + 1..];
        WriteLine([argv[i]]);
      }
    }

    method WriteRequest(q: Request)
      modifies this
      ensures sent == old(sent) + RequestBytes(q)
    {
      WriteLine([q.id]);
      WriteLine([q.image]);
      WriteEnv(q.env);
      WriteLine(["CMD"]);
      WriteArgv(q.argv);
      WriteLine([[]]);
    }

    method WriteOutFrame(fd: Bytes, payload: Bytes)
      modifies this
      ensures sent == old(sent) + FrameBytes(fd, payload)
    {
      var n := Itoa(|payload|);
      WriteLine(["OUT", fd, n]);
      JoinTwo(fd, n);
      assert ["OUT", fd, n][1..] == [fd, n];
      sent := sent + payload;
    }
  }

  class Reader {
    const limit: Limit
    var rest: Bytes

    constructor (stream: Bytes, limit: Limit)
      ensures rest == stream && this.limit == limit
    {
      this.limit := limit;
      rest := stream;
    }

    method ReadLine() returns (tok: Option<seq<Bytes>>)
      modifies this
      ensures ReadTokens(old(rest)).None? ==> tok.None?
      ensures ReadTokens(old(rest)).Some? ==>
                tok == Some(ReadTokens(old(rest)).value.value) && rest == ReadTokens(old(rest)).value.rest
    {
      var l := NextLine(rest);
      if l.None? {
        rest := [];
        return None;
      }
      rest := l.value.rest;
      return Some(Tokens(l.value.text));
    }

    method ReadEnv() returns (env: Option<seq<Bytes>>)
      modifies this
      ensures env.Some? <==> ParseEnv(old(rest), []).Some?
      ensures env.Some? ==> ParseEnv(old(rest), []) == Some(Read(env.value, rest))
    {
      var acc: seq<Bytes> := [];
      while true
        invariant ParseEnv(rest, acc) == ParseEnv(old(rest), [])
        decreases |rest|
      {
        var tok := ReadLine();
        if tok.None? || tok.value == [] {
          return None;
        }
        if tok.value[0] == "ENV" {
          acc := acc + [Join(tok.value[1..], " ")];
        } else if tok.value[0] == "CMD" {
          return Some(acc);
        } else {
          return None;
        }
      }
    }

    method ReadArgv() returns (argv: Option<seq<Bytes>>)
      modifies this
      ensures argv.Some? <==> ParseArgv(old(rest), []).Some?
      ensures argv.Some? ==> ParseArgv(old(rest), []) == Some(Read(argv.value, rest))
    {
      var acc: seq<Bytes> := [];
      while true
        invariant ParseArgv(rest, acc) == ParseArgv(old(rest), [])
        decreases |rest|
      {
        var tok := ReadLine();
        if tok.None? {
          return None;
        }
        if tok.value == [] {
          return Some(acc);
        }
        acc := acc + [Join(tok.value, " ")];
      }
    }

    method ReadRequest() returns (q: Option<Request>)
      modifies this
      ensures q.Some? <==> ParseRequest(old(rest)).Some?
      ensures q.Some? ==> ParseRequest(old(rest)) == Some(Read(q.value, rest))
    {
      var idTok := ReadLine();
      if idTok.None? {
        return None;
      }
      var imgTok := ReadLine();
      if imgTok.None? {
        return None;
      }
      var id, image := Join(idTok.value, ""), Join(imgTok.value, "");
      if id == "" || image == "" {
        return None;
      }
      var env := ReadEnv();
      if env.None? {
        return None;
      }
      var argv := ReadArgv();
      if argv.None? {
        return None;
      }
      return Some(Request(id, image, env.value, argv.value));
    }

    method PumpStdin() returns (r: Pumped)
      modifies this
      ensures r == Pump(limit, old(rest), [], [])
    {
      var stdin: Bytes, signals: seq<Bytes> := [], [];
      while true
        invariant Pump(limit, rest, stdin, signals) == Pump(limit, old(rest), [], [])
        decreases |rest|
      {
        var start := rest;
        var tok := ReadLine();
        if tok.None? {
          return Pumped(stdin, signals, Killed, start);
        }
        if tok.value != [] {
          if tok.value[0] == "DATA" {
            if |tok.value| < 2 {
              return Pumped(stdin, signals, Crashed, rest);
            }
            var n := Atoi(tok.value[1]);
            if n.None? || n.value < 0 {
              return Pumped(stdin, signals, Killed, rest);
            }
            if n.value > limit {
              return Pumped(stdin, signals, Crashed, rest);
            }
            if n.value > |rest| {
              return Pumped(stdin, signals, Killed, rest);
            }
            stdin := stdin + rest[..n.value];
            rest := rest[n.value..];
          } else if tok.value[0] == "EOF" {
            return Pumped(stdin, signals, Closed, rest);
          } else if tok.value[0] == "SIGNAL" && |tok.value| > 1 {
            signals := signals + [tok.value[1]];
          }
        }
      }
    }

    method ReadEvent() returns (e: Decoded)
      modifies this
      ensures e == DecodeEvent(limit, old(rest))
      ensures e.Decoded? ==> rest == e.rest
    {
      var tok := ReadLine();
      if tok.None? || tok.value == [] {
        return Broken;
      }
      if tok.value[0] != "OUT" {
        return Decoded(Control(tok.value[0], Join(tok.value[1..], " ")), rest);
      }
      if |tok.value| < 3 {
        return Broken;
      }
      var n := Atoi(tok.value[2]);
      if n.None? {
        return Broken;
      }
      if n.value < 0 || n.value > limit {
        return Crash;
      }
      if n.value > |rest| {
        return Broken;
      }
      var payload := rest[..n.value];
      rest := rest[n.value..];
      return Decoded(Out(tok.value[1], payload), rest);
    }
  }
}
