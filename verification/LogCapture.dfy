/**
  Log capture: output arrives in arbitrary pieces, complete lines are appended
  to the log as they end, and a partial line is held until its newline or the
  close.
 */
module LogCapture {
  type Bytes = seq<char>

  // ---- the lines of a whole stream ----

  /** What follows the last newline. */
  function Rest(s: Bytes): (r: Bytes)
    ensures '\n' !in r && |r| <= |s|
  {
    if s == [] || s[|s| - 1] == '\n' then [] else Rest(s[..|s| - 1]) + [s[|s| - 1]]
  }

  /** The lines a newline ends, without it. */
  function RawLines(s: Bytes): seq<Bytes> {
    if s == [] then []
    else
      var init := s[..|s| - 1];
      if s[|s| - 1] == '\n' then RawLines(init) + [Rest(init)] else RawLines(init)
  }

  function Rejoin(lines: seq<Bytes>): Bytes {
    if lines == [] then [] else Rejoin(lines[..|lines| - 1]) + lines[|lines| - 1] + ['\n']
  }

  /** The split: newline-free pieces that rejoin, with the rest, to the stream. */
  lemma {:induction false} SplitRejoins(s: Bytes)
    ensures s == Rejoin(RawLines(s)) + Rest(s)
    ensures forall l <- RawLines(s) :: '\n' !in l
  {
    if s != [] {
      var init := s[..|s| - 1];
      SplitRejoins(init);
      assert s == init + [s[|s| - 1]];
      if s[|s| - 1] == '\n' {
        assert RawLines(s)[..|RawLines(init)|] == RawLines(init);
      }
    }
  }

  /** At most one trailing carriage return is cut from a line. */
  function TrimCr(line: Bytes): Bytes {
    if line != [] && line[|line| - 1] == '\r' then line[..|line| - 1] else line
  }

  function Trimmed(lines: seq<Bytes>): seq<Bytes> {
    if lines == [] then [] else Trimmed(lines[..|lines| - 1]) + [TrimCr(lines[|lines| - 1])]
  }

  /** What a log of the whole stream holds: its lines, and a last unterminated one if there is any. */
  function LogOf(s: Bytes): seq<Bytes> {
    Trimmed(if Rest(s) == [] then RawLines(s) else RawLines(s) + [Rest(s)])
  }

  function Concat(pieces: seq<Bytes>): Bytes {
    if pieces == [] then [] else Concat(pieces[..|pieces| - 1]) + pieces[|pieces| - 1]
  }

  /** One carriage return goes, a second one and any elsewhere stay. */
  lemma TrimCrExactly(line: Bytes)
    ensures TrimCr(line + ['\r']) == line
    ensures line == [] || line[|line| - 1] != '\r' ==> TrimCr(line) == line
  {
    assert (line + ['\r'])[..|line|] == line;
  }

  lemma {:induction false} TrimmedEach(lines: seq<Bytes>)
    ensures |Trimmed(lines)| == |lines|
    ensures forall i :: 0 <= i < |lines| ==> Trimmed(lines)[i] == TrimCr(lines[i])
  {
    if lines != [] {
      TrimmedEach(lines[..|lines| - 1]);
    }
  }

  lemma TrimmedSnoc(lines: seq<Bytes>, l: Bytes)
    ensures Trimmed(lines + [l]) == Trimmed(lines) + [TrimCr(l)]
  {
    assert (lines + [l])[..|lines|] == lines;
  }

  // ---- cutting at the held rest ----

  lemma LastMoves(a: Bytes, seg: Bytes)
    requires seg != []
    ensures a + seg[..|seg| - 1] + [seg[|seg| - 1]] == a + seg
  {
  }

  lemma AppendChar(t: Bytes, c: char)
    requires c != '\n'
    ensures RawLines(t + [c]) == RawLines(t) && Rest(t + [c]) == Rest(t) + [c]
  {
    assert (t + [c])[..|t|] == t;
  }

  lemma {:induction false} AppendPlain(t: Bytes, seg: Bytes)
    requires '\n' !in seg
    ensures RawLines(t + seg) == RawLines(t) && Rest(t + seg) == Rest(t) + seg
  {
    if seg == [] {
      assert t + seg == t;
    } else {
      var init, last := seg[..|seg| - 1], seg[|seg| - 1];
      AppendPlain(t, init);
      AppendChar(t + init, last);
      LastMoves(t, seg);
      LastMoves(Rest(t), seg);
    }
  }

  lemma AppendLine(t: Bytes, seg: Bytes)
    requires '\n' !in seg && Rest(t) == []
    ensures RawLines(t + seg + ['\n']) == RawLines(t) + [seg] && Rest(t + seg + ['\n']) == []
  {
    AppendPlain(t, seg);
    assert [] + seg == seg;
    assert (t + seg + ['\n'])[..|t + seg|] == t + seg;
  }

  lemma RestIsSuffix(s: Bytes)
    ensures s == s[..|s| - |Rest(s)|] + Rest(s)
  {
    SplitRejoins(s);
    assert s[..|s| - |Rest(s)|] == Rejoin(RawLines(s));
  }

  lemma {:induction false} RejoinSplits(lines: seq<Bytes>)
    requires forall l <- lines :: '\n' !in l
    ensures RawLines(Rejoin(lines)) == lines && Rest(Rejoin(lines)) == []
  {
    if lines != [] {
      var init, last := lines[..|lines| - 1], lines[|lines| - 1];
      assert last in lines && forall l <- init :: l in lines;
      RejoinSplits(init);
      AppendLine(Rejoin(init), last);
      assert init + [last] == lines;
    }
  }

  /** It is the only split into newline-free lines and a newline-free rest. */
  lemma SplitUnique(s: Bytes, lines: seq<Bytes>, rest: Bytes)
    requires s == Rejoin(lines) + rest && (forall l <- lines :: '\n' !in l) && '\n' !in rest
    ensures lines == RawLines(s) && rest == Rest(s)
  {
    RejoinSplits(lines);
    AppendPlain(Rejoin(lines), rest);
    assert [] + rest == rest;
  }

  /** The log of a stream, line by line: each line trimmed, and the rest as a last line unless it is empty. */
  lemma LogExactly(lines: seq<Bytes>, rest: Bytes)
    requires (forall l <- lines :: '\n' !in l) && '\n' !in rest
    ensures var log := LogOf(Rejoin(lines) + rest);
            && |log| == |lines| + (if rest == [] then 0 else 1)
            && (forall i :: 0 <= i < |lines| ==> log[i] == TrimCr(lines[i]))
            && (rest != [] ==> log[|lines|] == TrimCr(rest))
  {
    var s := Rejoin(lines) + rest;
    SplitUnique(s, lines, rest);
    TrimmedEach(if rest == [] then lines else lines + [rest]);
  }

  /** Without its held rest the stream ends at a newline, with the same lines. */
  lemma WithoutRest(s: Bytes)
    ensures var base := s[..|s| - |Rest(s)|];
            RawLines(base) == RawLines(s) && Rest(base) == [] && base + Rest(s) == s
  {
    RestIsSuffix(s);
    var base := s[..|s| - |Rest(s)|];
    AppendPlain(base, Rest(s));
    assert Rest(base) + Rest(s) == Rest(s);
    assert |Rest(base)| == 0;
  }

  /** One round of the scanning loop: the line up to the next newline. */
  lemma ScanLine(base: Bytes, data: Bytes, start: nat, end: nat)
    requires start <= end < |data| && data[end] == '\n' && '\n' !in data[start..end]
    requires Rest(base + data[..start]) == []
    ensures Trimmed(RawLines(base + data[..end + 1])) == Trimmed(RawLines(base + data[..start])) + [TrimCr(data[start..end])]
    ensures Rest(base + data[..end + 1]) == []
  {
    var line := data[start..end];
    AppendLine(base + data[..start], line);
    assert base + data[..start] + line + ['\n'] == base + data[..end + 1];
    TrimmedSnoc(RawLines(base + data[..start]), line);
  }

  /** After the last newline: what is left is held. */
  lemma ScanEnd(base: Bytes, data: Bytes, start: nat)
    requires start <= |data| && '\n' !in data[start..]
    requires Rest(base + data[..start]) == []
    ensures RawLines(base + data) == RawLines(base + data[..start]) && Rest(base + data) == data[start..]
  {
    AppendPlain(base + data[..start], data[start..]);
    assert base + data[..start] + data[start..] == base + data;
    assert [] + data[start..] == data[start..];
  }

  /** The index of the first newline of `s`, or -1. */
  method IndexNewline(s: Bytes) returns (i: int)
    ensures -1 <= i < |s|
    ensures i < 0 ==> '\n' !in s
    ensures i >= 0 ==> s[i] == '\n' && '\n' !in s[..i]
  {
    for k := 0 to |s|
      invariant '\n' !in s[..k]
    {
      if s[k] == '\n' {
        return k;
      }
      assert s[..k + 1] == s[..k] + [s[k]];
    }
    assert s[..|s|] == s;
    return -1;
  }

  // ---- the capture ----

  class Capture {
    var part: Bytes
    var log: seq<Bytes>

    /** Fed so far with a stream `s`: its lines are logged, and its rest, free of newlines, is held. */
    ghost predicate Holds(s: Bytes)
      reads this
    {
      log == Trimmed(RawLines(s)) && part == Rest(s)
    }

    constructor ()
      ensures Holds([])
    {
      part, log := [], [];
    }

    method Emit(line: Bytes)
      modifies this`log
      ensures log == old(log) + [TrimCr(line)]
    {
      log := log + [TrimCr(line)];
    }

    method Write(p: Bytes, ghost s: Bytes) returns (n: nat)
      requires Holds(s)
      modifies this
      ensures Holds(s + p) && n == |p|
    {
      var data := part + p;
      part := [];
      ghost var base := s[..|s| - |Rest(s)|];
      WithoutRest(s);
      assert s + p == base + data;
      var start := Scan(data, base);
      part := data[start..];
      return |p|;
    }

    /** Emits every line that ends in `data`; what follows the last newline starts at the result. */
    method Scan(data: Bytes, ghost base: Bytes) returns (start: nat)
      requires Rest(base) == [] && log == Trimmed(RawLines(base))
      modifies this`log
      ensures start <= |data| && log == Trimmed(RawLines(base + data)) && data[start..] == Rest(base + data)
    {
      start := 0;
      assert base + data[..0] == base;
      var i := IndexNewline(data[start..]);
      while i >= 0
        invariant 0 <= start <= |data| && -1 <= i < |data| - start
        invariant if i < 0 then '\n' !in data[start..] else data[start + i] == '\n' && '\n' !in data[start..start + i]
        invariant log == Trimmed(RawLines(base + data[..start])) && Rest(base + data[..start]) == []
        decreases |data| - start
      {
        ScanLine(base, data, start, start + i);
        Emit(data[start..start + i]);
        start := start + i + 1;
        i := IndexNewline(data[start..]);
        assert i >= 0 ==> data[start..][..i] == data[start..start + i];
      }
      ScanEnd(base, data, start);
    }

    method Close(ghost s: Bytes)
      requires Holds(s)
      modifies this
      ensures log == LogOf(s) && part == []
    {
      if |part| > 0 {
        TrimmedSnoc(RawLines(s), part);
        Emit(part);
        part := [];
      }
    }
  }

  /** However a stream is cut into writes, the log after closing is that of the whole stream. */
  method CaptureAll(pieces: seq<Bytes>) returns (log: seq<Bytes>)
    ensures log == LogOf(Concat(pieces))
  {
    var c := new Capture();
    assert Concat(pieces[..0]) == [];
    for k := 0 to |pieces|
      invariant fresh(c) && c.Holds(Concat(pieces[..k]))
    {
      assert pieces[..k + 1][..k] == pieces[..k];
      var _ := c.Write(pieces[k], Concat(pieces[..k]));
    }
    assert pieces[..|pieces|] == pieces;
    c.Close(Concat(pieces));
    log := c.log;
  }
}
