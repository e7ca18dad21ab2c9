/**
 The bounded line reader of the IPC server.  A request line is read with a cap of 64 KiB, so the
 byte stream of a client is cut into pieces; every piece that is not blank gets one reply.
 */
module Ipc {
  import opened Basics
  import opened LineEnds
  import Utf8

  type Byte = Utf8.Byte

  const NEWLINE: Byte := 10
  const RETURN: Byte := 13
  const MAX_REQUEST_LINE_BYTES: nat := 64 * 1024

  /** Bytes one capped `read_line` takes from a stream that still holds `b`. */
  function ReadSize(b: seq<Byte>): (n: nat)
    ensures n <= |b| && n <= MAX_REQUEST_LINE_BYTES && (b != [] ==> n >= 1)
  {
    Min(LineEnd(b, NEWLINE), MAX_REQUEST_LINE_BYTES)
  }

  /** The pieces into which successive capped reads cut a stream. */
  function Pieces(b: seq<Byte>): seq<seq<Byte>>
    decreases |b|
  {
    if b == [] then [] else [b[..ReadSize(b)]] + Pieces(b[ReadSize(b)..])
  }

  /** Plain newline splitting, terminators kept. */
  function PlainLines(b: seq<Byte>): seq<seq<Byte>>
    decreases |b|
  {
    if b == [] then [] else [b[..LineEnd(b, NEWLINE)]] + PlainLines(b[LineEnd(b, NEWLINE)..])
  }

  function Concat(ps: seq<seq<Byte>>): seq<Byte> {
    if ps == [] then [] else ps[0] + Concat(ps[1..])
  }

  // ---------------------------------------------------------------- what the pieces are

  /** A read that returned before the end of the stream did so at a newline or at the cap. */
  predicate Complete(p: seq<Byte>) {
    p != [] && (p[|p| - 1] == NEWLINE || |p| == MAX_REQUEST_LINE_BYTES)
  }

  /** A non-empty read of at most the cap whose only newline, if any, is its last byte. */
  predicate Piece(p: seq<Byte>) {
    0 < |p| <= MAX_REQUEST_LINE_BYTES && NEWLINE !in p[..|p| - 1]
  }

  /** `ps` cuts `b` into pieces, all of them complete except possibly the last. */
  predicate Cuts(ps: seq<seq<Byte>>, b: seq<Byte>) {
    && Concat(ps) == b
    && (forall i :: 0 <= i < |ps| ==> Piece(ps[i]))
    && (forall i :: 0 <= i < |ps| - 1 ==> Complete(ps[i]))
  }

  lemma {:induction false} LineEndPastPiece(p: seq<Byte>, rest: seq<Byte>)
    requires p != [] && NEWLINE !in p[..|p| - 1]
    ensures p[|p| - 1] == NEWLINE || rest == [] ==> LineEnd(p + rest, NEWLINE) == |p|
    ensures LineEnd(p + rest, NEWLINE) >= |p|
  {
    if |p| > 1 {
      assert p[0] == p[..|p| - 1][0];
      assert (p + rest)[1..] == p[1..] + rest;
      assert p[1..][..|p| - 2] == p[..|p| - 1][1..];
      LineEndPastPiece(p[1..], rest);
    } else {
      assert (p + rest)[1..] == rest;
    }
  }

  lemma FirstReadIsAPiece(b: seq<Byte>)
    requires b != []
    ensures Piece(b[..ReadSize(b)])
    ensures ReadSize(b) < |b| ==> Complete(b[..ReadSize(b)])
  {
    LineEndShape(b, NEWLINE);
    var n := ReadSize(b);
    assert b[..n][..n - 1] == b[..LineEnd(b, NEWLINE) - 1][..n - 1];
  }

  /** The reader conserves bytes, respects the cap and stops only at newlines, at the cap or at the end. */
  lemma {:induction false} PiecesCut(b: seq<Byte>)
    ensures Cuts(Pieces(b), b)
    decreases |b|
  {
    if b != [] {
      var n := ReadSize(b);
      FirstReadIsAPiece(b);
      PiecesCut(b[n..]);
      assert b == b[..n] + b[n..];
      assert Pieces(b)[1..] == Pieces(b[n..]);
    }
  }

  /** Only one cutting has these properties: together they say exactly what the reader does. */
  lemma {:induction false} CuttingIsUnique(ps: seq<seq<Byte>>, b: seq<Byte>)
    requires Cuts(ps, b)
    ensures ps == Pieces(b)
    decreases |ps|
  {
    if ps != [] {
      var p, rest := ps[0], Concat(ps[1..]);
      assert b == p + rest;
      LineEndPastPiece(p, rest);
      if |ps| == 1 {
        assert rest == [];
      } else {
        assert Complete(ps[0]);
      }
      assert ReadSize(b) == |p|;
      assert b[..|p|] == p && b[|p|..] == rest;
      forall i | 0 <= i < |ps[1..]|
        ensures Piece(ps[1..][i]) && (i < |ps[1..]| - 1 ==> Complete(ps[1..][i]))
      {
        assert ps[1..][i] == ps[i + 1];
      }
      CuttingIsUnique(ps[1..], rest);
      assert ps == [p] + ps[1..];
    }
  }

  /** The cap is invisible exactly when every line, its newline included, fits under it. */
  lemma {:induction false} PiecesAreLinesIffTheyFit(b: seq<Byte>)
    ensures Pieces(b) == PlainLines(b) <==>
            forall i :: 0 <= i < |PlainLines(b)| ==> |PlainLines(b)[i]| <= MAX_REQUEST_LINE_BYTES
    decreases |b|
  {
    if b != [] {
      var n := LineEnd(b, NEWLINE);
      var lines, rest := PlainLines(b), PlainLines(b[n..]);
      assert lines[0] == b[..n] && lines[1..] == rest;
      if n > MAX_REQUEST_LINE_BYTES {
        assert |Pieces(b)[0]| != |lines[0]|;
      } else {
        PiecesAreLinesIffTheyFit(b[n..]);
        assert Pieces(b)[1..] == Pieces(b[n..]);
        assert forall i :: 0 <= i < |rest| ==> rest[i] == lines[i + 1];
        assert forall i :: 1 <= i < |lines| ==> lines[i] == rest[i - 1];
      }
    }
  }

  // ---------------------------------------------------------------- which requests are served

  /** How a client's stream ends: closed, or silent until the read times out. */
  datatype Ending = Closed | Stalled

  function TrimEnd(p: seq<Byte>, x: Byte): (r: seq<Byte>)
    ensures r <= p && (r != [] ==> r[|r| - 1] != x) && forall k :: |r| <= k < |p| ==> p[k] == x
  {
    if p != [] && p[|p| - 1] == x then TrimEnd(p[..|p| - 1], x) else p
  }

  /** A read piece without its line ending. */
  function Trim(p: seq<Byte>): seq<Byte> { TrimEnd(TrimEnd(p, NEWLINE), RETURN) }

  /** The read that follows delivers a piece; otherwise the connection is dropped. */
  predicate Delivers(b: seq<Byte>, ending: Ending, utf8: seq<Byte> -> bool) {
    && b != []
    && (ending.Closed? || Complete(b[..ReadSize(b)]))
    && utf8(b[..ReadSize(b)])
  }

  /** Requests the server acts on, in order: what is not blank among the pieces it gets to read. */
  function Requests(b: seq<Byte>, ending: Ending, utf8: seq<Byte> -> bool): seq<seq<Byte>>
    decreases |b|
  {
    if !Delivers(b, ending, utf8) then [] else
    var line := Trim(b[..ReadSize(b)]);
    (if line == [] then [] else [line]) + Requests(b[ReadSize(b)..], ending, utf8)
  }

  function NonBlank(ps: seq<seq<Byte>>): seq<seq<Byte>> {
    if ps == [] then [] else (if Trim(ps[0]) == [] then [] else [Trim(ps[0])]) + NonBlank(ps[1..])
  }

  /** The pieces before the first one that is not valid text: the reader drops the connection there. */
  function ValidPrefix(ps: seq<seq<Byte>>, utf8: seq<Byte> -> bool): seq<seq<Byte>> {
    if ps == [] || !utf8(ps[0]) then [] else [ps[0]] + ValidPrefix(ps[1..], utf8)
  }

  lemma ValidPrefixCons(p: seq<Byte>, ps: seq<seq<Byte>>, utf8: seq<Byte> -> bool)
    ensures ValidPrefix([p] + ps, utf8) == if utf8(p) then [p] + ValidPrefix(ps, utf8) else []
    ensures NonBlank([p] + ps) == (if Trim(p) == [] then [] else [Trim(p)]) + NonBlank(ps)
  {
    assert ([p] + ps)[1..] == ps;
  }

  /** Of a stream that is closed, every non-blank piece up to the first invalid one is served, in order. */
  lemma {:induction false} EveryPieceIsServed(b: seq<Byte>, utf8: seq<Byte> -> bool)
    ensures Requests(b, Closed, utf8) == NonBlank(ValidPrefix(Pieces(b), utf8))
    decreases |b|
  {
    if b != [] {
      hide ReadSize, Trim, NonBlank, ValidPrefix;
      var p, rest := b[..ReadSize(b)], b[ReadSize(b)..];
      EveryPieceIsServed(rest, utf8);
      ValidPrefixCons(p, Pieces(rest), utf8);
      ValidPrefixCons(p, ValidPrefix(Pieces(rest), utf8), utf8);
    }
    NothingIsServed(utf8);
  }

  lemma NothingIsServed(utf8: seq<Byte> -> bool)
    ensures NonBlank([]) == [] && ValidPrefix([], utf8) == []
  {}

  /** The pieces of a stream without an incomplete last one. */
  function WholePieces(ps: seq<seq<Byte>>): seq<seq<Byte>> {
    if ps == [] || Complete(ps[|ps| - 1]) then ps else ps[..|ps| - 1]
  }

  lemma WholePiecesCons(p: seq<Byte>, ps: seq<seq<Byte>>)
    requires ps != [] || Complete(p)
    ensures WholePieces([p] + ps) == [p] + WholePieces(ps)
  {
    if ps != [] {
      assert ([p] + ps)[|ps|] == ps[|ps| - 1];
    }
  }

  /** If it stalls instead, an incomplete last piece goes unserved as well. */
  lemma {:induction false} StallLosesOnlyThePartialPiece(b: seq<Byte>, utf8: seq<Byte> -> bool)
    ensures Requests(b, Stalled, utf8) == NonBlank(ValidPrefix(WholePieces(Pieces(b)), utf8))
    decreases |b|
  {
    hide ReadSize, Trim, NonBlank, ValidPrefix, Complete, WholePieces;
    NothingIsServed(utf8);
    if b == [] {
      NoWholePieces();
    } else {
      var n := ReadSize(b);
      var p, rest := b[..n], Pieces(b[n..]);
      FirstReadIsAPiece(b);
      if Complete(p) {
        StallLosesOnlyThePartialPiece(b[n..], utf8);
        WholePiecesCons(p, rest);
        ValidPrefixCons(p, WholePieces(rest), utf8);
        ValidPrefixCons(p, ValidPrefix(WholePieces(rest), utf8), utf8);
      } else {
        assert b[n..] == [];
        PartialPieceOnly(p);
      }
    }
  }

  lemma NoWholePieces()
    ensures WholePieces([]) == []
  {}

  lemma PartialPieceOnly(p: seq<Byte>)
    requires !Complete(p)
    ensures WholePieces([p] + []) == []
  {
    assert [p] + [] == [p];
  }

  // ---------------------------------------------------------------- what a request contains

  predicate EndsIn(p: seq<Byte>, x: Byte) { p != [] && p[|p| - 1] == x }

  /** `p` is `x`, then `i` carriage returns, then `j` newlines, and `x` does not share in either. */
  predicate TrimsTo(p: seq<Byte>, x: seq<Byte>, i: nat, j: nat) {
    && p == x + seq(i, _ => RETURN) + seq(j, _ => NEWLINE)
    && !EndsIn(x, RETURN) && (i == 0 ==> !EndsIn(x, NEWLINE))
  }

  /** Trimming removes the newlines at the end, then the carriage returns in front of them, and nothing else. */
  lemma TrimShape(p: seq<Byte>) returns (i: nat, j: nat)
    ensures TrimsTo(p, Trim(p), i, j)
  {
    var t, x := TrimEnd(p, NEWLINE), Trim(p);
    i, j := |t| - |x|, |p| - |t|;
    assert t == x + seq(i, _ => RETURN);
    assert p == t + seq(j, _ => NEWLINE);
  }

  lemma {:induction false} TrimEndOf(x: seq<Byte>, n: nat, y: Byte)
    requires !EndsIn(x, y)
    ensures TrimEnd(x + seq(n, _ => y), y) == x
  {
    var p := x + seq(n, _ => y);
    if n == 0 {
      assert p == x;
    } else {
      TrimEndOf(x, n - 1, y);
      assert p[..|p| - 1] == x + seq(n - 1, _ => y);
    }
  }

  /** That says exactly what trimming does. */
  lemma TrimIsDetermined(p: seq<Byte>, x: seq<Byte>, i: nat, j: nat)
    requires TrimsTo(p, x, i, j)
    ensures x == Trim(p)
  {
    var t := x + seq(i, _ => RETURN);
    TrimEndOf(t, j, NEWLINE);
    TrimEndOf(x, i, RETURN);
  }

  function Eol(crlf: bool): seq<Byte> { if crlf then [RETURN, NEWLINE] else [NEWLINE] }

  /** A line that a client may send: valid text that fits under the cap with its line ending. */
  predicate Sendable(x: seq<Byte>, crlf: bool) {
    && Utf8.Valid(x) && NEWLINE !in x && !EndsIn(x, RETURN)
    && |x + Eol(crlf)| <= 65536
  }

  /** The bytes of a client that sends `xs`, each followed by a line ending of its choice. */
  function Sent(xs: seq<seq<Byte>>, crlf: seq<bool>): seq<Byte>
    requires |crlf| == |xs|
  {
    if xs == [] then [] else xs[0] + Eol(crlf[0]) + Sent(xs[1..], crlf[1..])
  }

  lemma LineTrims(x: seq<Byte>, crlf: bool)
    requires NEWLINE !in x && !EndsIn(x, RETURN)
    ensures Trim(x + Eol(crlf)) == x
  {
    var i := if crlf then 1 else 0;
    assert x + Eol(crlf) == x + seq(i, _ => RETURN) + seq(1, _ => NEWLINE);
    TrimIsDetermined(x + Eol(crlf), x, i, 1);
  }

  lemma LineIsValid(x: seq<Byte>, crlf: bool)
    requires Utf8.Valid(x)
    ensures Utf8.Valid(x + Eol(crlf))
  {
    hide Utf8.Valid;
    if crlf {
      AsciiAtEnd(x, RETURN);
      AsciiAtEnd(x + [RETURN], NEWLINE);
      assert x + Eol(crlf) == x + [RETURN] + [NEWLINE];
    } else {
      AsciiAtEnd(x, NEWLINE);
    }
  }

  lemma LineIsRead(x: seq<Byte>, crlf: bool, rest: seq<Byte>)
    requires NEWLINE !in x && |x + Eol(crlf)| <= MAX_REQUEST_LINE_BYTES
    ensures ReadSize(x + Eol(crlf) + rest) == |x + Eol(crlf)| && Complete(x + Eol(crlf))
  {
    var p := x + Eol(crlf);
    assert p[..|p| - 1] == if crlf then x + [RETURN] else x;
    LineEndPastPiece(p, rest);
  }

  /** A line is one request if it is not empty, and skipped if it is; the stream goes on behind it. */
  lemma LineIsServed(x: seq<Byte>, crlf: bool, rest: seq<Byte>, ending: Ending)
    requires Sendable(x, crlf)
    ensures Requests(x + Eol(crlf) + rest, ending, Utf8.Valid) ==
            (if x == [] then [] else [x]) + Requests(rest, ending, Utf8.Valid)
  {
    hide Utf8.Valid, Trim, ReadSize;
    var p, b := x + Eol(crlf), x + Eol(crlf) + rest;
    LineTrims(x, crlf);
    LineIsValid(x, crlf);
    LineIsRead(x, crlf, rest);
    assert b[..|p|] == p && b[|p|..] == rest;
  }

  /** What clients send is what is served: request by request, whole, in order, with either line ending. */
  lemma {:induction false} SentIsServed(xs: seq<seq<Byte>>, crlf: seq<bool>, ending: Ending)
    requires |crlf| == |xs|
    requires forall i :: 0 <= i < |xs| ==> xs[i] != [] && Sendable(xs[i], crlf[i])
    ensures Requests(Sent(xs, crlf), ending, Utf8.Valid) == xs
  {
    if xs != [] {
      hide Sendable, Requests, Eol;
      forall i | 0 <= i < |xs[1..]|
        ensures xs[1..][i] != [] && Sendable(xs[1..][i], crlf[1..][i])
      {
        assert xs[1..][i] == xs[i + 1] && crlf[1..][i] == crlf[i + 1];
      }
      SentIsServed(xs[1..], crlf[1..], ending);
      LineIsServed(xs[0], crlf[0], Sent(xs[1..], crlf[1..]), ending);
      assert xs == [xs[0]] + xs[1..];
    }
  }

  // ---------------------------------------------------------------- valid text

  /** Every piece after the first starts with a whole character. */
  predicate CutsBetweenCharacters(ps: seq<seq<Byte>>) {
    forall i :: 1 <= i < |ps| && ps[i] != [] ==> !Utf8.Continuation(ps[i][0])
  }

  predicate AllValid(ps: seq<seq<Byte>>) { forall i :: 0 <= i < |ps| ==> Utf8.Valid(ps[i]) }

  /**
   Valid text is read as valid pieces if and only if the cap never cuts a character in two: every
   piece after the first begins with a byte that is not a continuation byte.
   */
  lemma {:induction false} ValidTextReadsValidly(b: seq<Byte>)
    requires Utf8.Valid(b)
    ensures AllValid(Pieces(b)) <==> CutsBetweenCharacters(Pieces(b))
    decreases |b|
  {
    if b != [] {
      hide ReadSize, Utf8.Valid, Utf8.Continuation;
      var n := ReadSize(b);
      var ps, rest := Pieces(b), Pieces(b[n..]);
      assert ps == [b[..n]] + rest;
      Utf8.ValidCut(b, n);
      if n == |b| {
        assert rest == [];
      } else {
        assert rest[0] == b[n..][..ReadSize(b[n..])] && rest[0][0] == b[n];
        if !Utf8.Continuation(b[n]) {
          ValidTextReadsValidly(b[n..]);
        }
        SplitFirst(b[..n], rest);
      }
    }
  }

  lemma SplitFirst(p: seq<Byte>, rest: seq<seq<Byte>>)
    requires rest != [] && rest[0] != []
    ensures AllValid([p] + rest) <==> Utf8.Valid(p) && AllValid(rest)
    ensures CutsBetweenCharacters([p] + rest) <==>
            !Utf8.Continuation(rest[0][0]) && CutsBetweenCharacters(rest)
  {
    var ps := [p] + rest;
    assert ps[0] == p && forall i :: 0 <= i < |rest| ==> rest[i] == ps[i + 1];
    assert forall i :: 1 <= i < |ps| ==> ps[i] == rest[i - 1];
  }

  lemma {:induction false} AllValidPrefix(ps: seq<seq<Byte>>)
    requires AllValid(ps)
    ensures ValidPrefix(ps, Utf8.Valid) == ps
  {
    if ps != [] {
      assert forall i :: 0 <= i < |ps[1..]| ==> ps[1..][i] == ps[i + 1];
      AllValidPrefix(ps[1..]);
      assert ps == [ps[0]] + ps[1..];
    }
  }

  lemma {:induction false} TrimmedAway(p: seq<Byte>, x: Byte)
    requires x <= 0x7F && Utf8.Valid(TrimEnd(p, x))
    ensures Utf8.Valid(p)
  {
    hide Utf8.Valid;
    if p != [] && p[|p| - 1] == x {
      TrimmedAway(p[..|p| - 1], x);
      AsciiAtEnd(p[..|p| - 1], x);
      assert p == p[..|p| - 1] + [x];
    }
  }

  lemma AsciiAlone(x: Byte)
    requires x <= 0x7F
    ensures Utf8.Valid([x])
  {
    assert Utf8.Begins([x]);
    assert [x][1..] == [];
  }

  lemma {:induction false} AsciiAtEnd(p: seq<Byte>, x: Byte)
    requires x <= 0x7F && Utf8.Valid(p)
    ensures Utf8.Valid(p + [x])
    decreases |p|
  {
    hide *;
    if p == [] {
      AsciiAlone(x);
      assert p + [x] == [x];
    } else {
      Utf8.ValidStep(p);
      BeginsLonger(p, x);
      Utf8.ValidStep(p + [x]);
      var m := 1 + Utf8.Trailing(p[0]);
      AsciiAtEnd(p[m..], x);
      assert (p + [x])[m..] == p[m..] + [x];
    }
  }

  lemma BeginsLonger(p: seq<Byte>, x: Byte)
    requires Utf8.Begins(p)
    ensures (p + [x])[0] == p[0] && 0 <= Utf8.Trailing(p[0]) < |p| && Utf8.Begins(p + [x])
  {
    assert forall i :: 0 <= i < |p| ==> (p + [x])[i] == p[i];
  }

  /** A piece that is not valid text is not blank, so stopping there loses it. */
  lemma {:induction false} InvalidPieceIsLost(ps: seq<seq<Byte>>)
    requires !AllValid(ps)
    ensures |NonBlank(ValidPrefix(ps, Utf8.Valid))| < |NonBlank(ps)|
  {
    hide Utf8.Valid, NonBlank, ValidPrefix;
    var p, rest := ps[0], ps[1..];
    assert ps == [p] + rest;
    ValidPrefixCons(p, rest, Utf8.Valid);
    NothingIsServed(Utf8.Valid);
    assert forall i :: 1 <= i < |ps| ==> ps[i] == rest[i - 1];
    if Utf8.Valid(p) {
      InvalidPieceIsLost(rest);
      ValidPrefixCons(p, ValidPrefix(rest, Utf8.Valid), Utf8.Valid);
    } else {
      InvalidIsNotBlank(p);
    }
  }

  lemma InvalidIsNotBlank(p: seq<Byte>)
    requires !Utf8.Valid(p)
    ensures Trim(p) != []
  {
    if Trim(p) == [] {
      TrimmedAway(TrimEnd(p, NEWLINE), RETURN);
      TrimmedAway(p, NEWLINE);
    }
  }

  /**
   A client that sends valid text and closes its stream has every non-blank piece served if and only
   if the cap never cuts a character in two.
   */
  lemma ValidTextIsServedIffUncut(b: seq<Byte>)
    requires Utf8.Valid(b)
    ensures Requests(b, Closed, Utf8.Valid) == NonBlank(Pieces(b)) <==> CutsBetweenCharacters(Pieces(b))
  {
    hide Utf8.Valid;
    ValidTextReadsValidly(b);
    EveryPieceIsServed(b, Utf8.Valid);
    if AllValid(Pieces(b)) {
      AllValidPrefix(Pieces(b));
    } else {
      InvalidPieceIsLost(Pieces(b));
    }
  }

  lemma {:induction false} LinesStartCharacters(b: seq<Byte>)
    requires Utf8.Valid(b)
    ensures CutsBetweenCharacters(PlainLines(b))
    decreases |b|
  {
    if b != [] {
      hide Utf8.Valid;
      var n := LineEnd(b, NEWLINE);
      var rest := PlainLines(b[n..]);
      assert PlainLines(b) == [b[..n]] + rest;
      if n < |b| {
        LineEndShape(b, NEWLINE);
        AfterAscii(b, n);
        LinesStartCharacters(b[n..]);
        assert rest[0][0] == b[n];
        SplitFirst(b[..n], rest);
      }
    }
  }

  /** The byte after a newline in valid text starts a character. */
  lemma {:induction false} AfterAscii(b: seq<Byte>, n: nat)
    requires Utf8.Valid(b) && 0 < n < |b| && b[n - 1] == NEWLINE
    ensures !Utf8.Continuation(b[n]) && Utf8.Valid(b[n..])
    decreases |b|
  {
    var m := 1 + Utf8.Trailing(b[0]);
    if n < m {
      assert false;
    } else if n == m {
      assert Utf8.Begins(b[m..]);
    } else {
      AfterAscii(b[m..], n - m);
      assert b[m..][n - m..] == b[n..];
    }
  }

  /** In particular text whose lines all fit under the cap is served completely. */
  lemma FittingTextIsServed(b: seq<Byte>)
    requires Utf8.Valid(b)
    requires forall i :: 0 <= i < |PlainLines(b)| ==> |PlainLines(b)[i]| <= MAX_REQUEST_LINE_BYTES
    ensures Requests(b, Closed, Utf8.Valid) == NonBlank(PlainLines(b))
  {
    PiecesAreLinesIffTheyFit(b);
    LinesStartCharacters(b);
    ValidTextIsServedIffUncut(b);
  }

  /** If the first read ends inside a character, nothing of the text is served. */
  lemma CutCharacterDropsAll(b: seq<Byte>)
    requires Utf8.Valid(b) && ReadSize(b) < |b| && Utf8.Continuation(b[ReadSize(b)])
    ensures Requests(b, Closed, Utf8.Valid) == [] && NonBlank(Pieces(b)) != []
  {
    hide Utf8.Valid, Utf8.Continuation, ReadSize, NonBlank;
    Utf8.ValidCut(b, ReadSize(b));
    assert Pieces(b)[0] == b[..ReadSize(b)];
    InvalidPieceIsLost(Pieces(b));
  }

  /** Such text exists: one byte short of the cap in ASCII, then a character of two bytes. */
  function Straddling(): seq<Byte> {
    seq(MAX_REQUEST_LINE_BYTES - 1, _ => 'a' as Byte) + [0xC3, 0xA9]
  }

  lemma StraddlingTextIsDropped()
    ensures |Straddling()| == 65537 && Utf8.Valid(Straddling()) && Requests(Straddling(), Closed, Utf8.Valid) == []
    ensures NonBlank(Pieces(Straddling())) != []
  {
    hide Utf8.Valid, Requests, Pieces, NonBlank, LineEnd;
    var b, n := Straddling(), MAX_REQUEST_LINE_BYTES;
    AsciiThenValid(b, 0);
    assert b[0..] == b;
    NoNewlineNoEnd(b, n);
    CutCharacterDropsAll(b);
  }

  lemma {:induction false} AsciiThenValid(b: seq<Byte>, i: nat)
    requires |b| >= 2 && i <= |b| - 2 && b[|b| - 2..] == [0xC3, 0xA9]
    requires forall k :: i <= k < |b| - 2 ==> b[k] <= 0x7F
    ensures Utf8.Valid(b[i..])
    decreases |b| - i
  {
    if i == |b| - 2 {
      assert b[i..][2..] == [];
    } else {
      AsciiThenValid(b, i + 1);
      assert b[i..][1..] == b[i + 1..];
    }
  }

  lemma {:induction false} NoNewlineNoEnd(b: seq<Byte>, n: nat)
    requires n <= |b| && NEWLINE !in b[..n]
    ensures LineEnd(b, NEWLINE) >= n
  {
    if n > 0 {
      assert b[0] == b[..n][0];
      assert b[1..][..n - 1] == b[..n][1..];
      NoNewlineNoEnd(b[1..], n - 1);
    }
  }
}
